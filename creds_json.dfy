/** The credential record and its on-disk form. `CredsData` derives serde's `Serialize`
    and `Deserialize`, and the store keeps it as JSON in `creds.json`: `Serialize` is the
    compact text `serde_json::to_writer` produces for it (fields in declaration order,
    strings escaped as serde_json escapes them), and `Parse` reads back the
    files in the layout serde writes. */
module CredsJson {
  import opened Wrappers

  /** Field order as declared: `refresh` comes before `token`. */
  datatype CredsData = CredsData(deviceId: string, email: string, refresh: string, token: string)

  // ---------------------------------------------------------------- writing

  function HexDigit(n: nat): char
    requires n < 16
  {
    "0123456789abcdef"[n]
  }

  /** serde_json's escaping of one character inside a string literal: the quote, the
      backslash and the control characters are escaped, everything else is copied. */
  function EscapeChar(c: char): string
  {
    if c == '"' then ['\\', '"']
    else if c == '\\' then ['\\', '\\']
    else if c as int == 0x08 then ['\\', 'b']
    else if c == '\t' then ['\\', 't']
    else if c == '\n' then ['\\', 'n']
    else if c as int == 0x0C then ['\\', 'f']
    else if c == '\r' then ['\\', 'r']
    else if c as int < 0x20 then ['\\', 'u', '0', '0', HexDigit(c as int / 16), HexDigit(c as int % 16)]
    else [c]
  }

  function Escape(s: string): string
  {
    if s == [] then [] else EscapeChar(s[0]) + Escape(s[1..])
  }

  function Quoted(s: string): string
  {
    ['"'] + (Escape(s) + ['"'])
  }

  function Field(key: string, value: string): string
  {
    Quoted(key) + ([':'] + Quoted(value))
  }

  /** The text `serde_json::to_writer` writes for a record. */
  function Serialize(d: CredsData): string
  {
    ['{'] + (Field("device_id", d.deviceId) + ([','] + (Field("email", d.email) + ([','] +
      (Field("refresh", d.refresh) + ([','] + (Field("token", d.token) + ['}'])))))))
  }

  // ---------------------------------------------------------------- reading

  /** JSON whitespace, the only text serde_json skips between tokens and after the value. */
  predicate IsWs(c: char) { c == ' ' || c == '\t' || c == '\n' || c == '\r' }

  function SkipWs(s: string): (r: string)
    ensures |r| <= |s| && (r == [] || !IsWs(r[0]))
  {
    if s != [] && IsWs(s[0]) then SkipWs(s[1..]) else s
  }

  function HexValue(c: char): Option<nat>
  {
    if '0' <= c <= '9' then Some((c as int) - ('0' as int))
    else if 'a' <= c <= 'f' then Some((c as int) - ('a' as int) + 10)
    else if 'A' <= c <= 'F' then Some((c as int) - ('A' as int) + 10)
    else None
  }

  function Hex4(a: char, b: char, c: char, d: char): Option<nat>
  {
    var h1 :- HexValue(a);
    var h2 :- HexValue(b);
    var h3 :- HexValue(c);
    var h4 :- HexValue(d);
    Some(((h1 * 16 + h2) * 16 + h3) * 16 + h4)
  }

  /** One escape sequence, read from just after its backslash: the character it stands
      for and the text after it. A `\u` escape naming a surrogate is refused. */
  function Unescape(t: string): (r: Option<(char, string)>)
    ensures r.Some? ==> |r.value.1| < |t|
  {
    if t == [] then None
    else if t[0] == '"' || t[0] == '\\' || t[0] == '/' then Some((t[0], t[1..]))
    else if t[0] == 'b' then Some((0x08 as char, t[1..]))
    else if t[0] == 'f' then Some((0x0C as char, t[1..]))
    else if t[0] == 'n' then Some(('\n', t[1..]))
    else if t[0] == 'r' then Some(('\r', t[1..]))
    else if t[0] == 't' then Some(('\t', t[1..]))
    else if t[0] == 'u' && |t| >= 5 then
      match Hex4(t[1], t[2], t[3], t[4])
      case None => None
      case Some(v) => if v < 0xD800 || 0xE000 <= v < 0x11_0000 then Some((v as char, t[5..])) else None
    else None
  }

  function Prepend(c: char, r: Option<(string, string)>): Option<(string, string)>
  {
    match r
    case None => None
    case Some((s, rest)) => Some(([c] + s, rest))
  }

  /** The rest of a string literal after its opening quote: the decoded characters and
      the text after the closing quote. Raw control characters are refused. */
  function StrBody(t: string): Option<(string, string)>
    decreases |t|
  {
    if t == [] then None
    else if t[0] == '"' then Some(([], t[1..]))
    else if t[0] == '\\' then
      match Unescape(t[1..])
      case None => None
      case Some((c, rest)) => Prepend(c, StrBody(rest))
    else if (t[0] as int) < 0x20 then None
    else Prepend(t[0], StrBody(t[1..]))
  }

  function Lit(s: string, c: char): Option<string>
  {
    var t := SkipWs(s);
    if t != [] && t[0] == c then Some(t[1..]) else None
  }

  function Str(s: string): Option<(string, string)>
  {
    var t := SkipWs(s);
    if t != [] && t[0] == '"' then StrBody(t[1..]) else None
  }

  /** `"key" : "value"` for the one key expected at this position. */
  function Member(s: string, key: string): Option<(string, string)>
  {
    var k :- Str(s);
    if k.0 != key then None
    else
      var r :- Lit(k.1, ':');
      Str(r)
  }

  /** A record in the layout serde writes, with whitespace allowed around every token;
      after the closing brace only whitespace may follow, or the parse fails. */
  function Parse(s: string): Option<CredsData>
  {
    var r0 :- Lit(s, '{');
    var m :- Member(r0, "device_id");
    var r1 :- Lit(m.1, ',');
    AfterDeviceId(m.0, r1)
  }

  function AfterDeviceId(deviceId: string, s: string): Option<CredsData>
  {
    var m :- Member(s, "email");
    var r :- Lit(m.1, ',');
    AfterEmail(deviceId, m.0, r)
  }

  function AfterEmail(deviceId: string, email: string, s: string): Option<CredsData>
  {
    var m :- Member(s, "refresh");
    var r :- Lit(m.1, ',');
    AfterRefresh(deviceId, email, m.0, r)
  }

  function AfterRefresh(deviceId: string, email: string, refresh: string, s: string): Option<CredsData>
  {
    var m :- Member(s, "token");
    var r :- Lit(m.1, '}');
    if SkipWs(r) == [] then Some(CredsData(deviceId, email, refresh, m.0)) else None
  }

  // ---------------------------------------------------------------- round trip

  lemma HexRoundTrip(n: nat)
    requires n < 16
    ensures HexValue(HexDigit(n)) == Some(n)
  {
  }

  lemma PlainStep(c: char, rest: string)
    requires c != '"' && c != '\\' && c as int >= 0x20
    ensures StrBody([c] + rest) == Prepend(c, StrBody(rest))
  {
    assert ([c] + rest)[1..] == rest;
  }

  lemma ShortEscapeStep(e: char, c: char, rest: string)
    requires Unescape([e] + rest) == Some((c, rest))
    ensures StrBody(['\\', e] + rest) == Prepend(c, StrBody(rest))
  {
    assert (['\\', e] + rest)[1..] == [e] + rest;
  }

  lemma UnicodeEscapeStep(c: char, rest: string)
    requires c as int < 0x20
    ensures StrBody(['\\', 'u', '0', '0', HexDigit(c as int / 16), HexDigit(c as int % 16)] + rest)
         == Prepend(c, StrBody(rest))
  {
    var hi, lo := c as int / 16, c as int % 16;
    HexRoundTrip(hi);
    HexRoundTrip(lo);
    var u := ['u', '0', '0', HexDigit(hi), HexDigit(lo)] + rest;
    assert Hex4('0', '0', HexDigit(hi), HexDigit(lo)) == Some(c as int);
    assert u[5..] == rest;
    assert Unescape(u) == Some((c, rest));
    assert (['\\'] + u)[1..] == u;
    assert ['\\', 'u', '0', '0', HexDigit(hi), HexDigit(lo)] + rest == ['\\'] + u;
  }

  lemma EscapeCharStep(c: char, rest: string)
    ensures StrBody(EscapeChar(c) + rest) == Prepend(c, StrBody(rest))
  {
    if c == '"' {
      ShortEscapeStep('"', c, rest);
    } else if c == '\\' {
      ShortEscapeStep('\\', c, rest);
    } else if c as int == 0x08 {
      ShortEscapeStep('b', c, rest);
    } else if c == '\t' {
      ShortEscapeStep('t', c, rest);
    } else if c == '\n' {
      ShortEscapeStep('n', c, rest);
    } else if c as int == 0x0C {
      ShortEscapeStep('f', c, rest);
    } else if c == '\r' {
      ShortEscapeStep('r', c, rest);
    } else if c as int < 0x20 {
      UnicodeEscapeStep(c, rest);
    } else {
      PlainStep(c, rest);
    }
  }

  lemma {:induction false} StrBodyOfEscape(s: string, rest: string)
    ensures StrBody(Escape(s) + (['"'] + rest)) == Some((s, rest))
  {
    if s == [] {
      assert Escape(s) + (['"'] + rest) == ['"'] + rest;
    } else {
      assert Escape(s) + (['"'] + rest) == EscapeChar(s[0]) + (Escape(s[1..]) + (['"'] + rest));
      EscapeCharStep(s[0], Escape(s[1..]) + (['"'] + rest));
      StrBodyOfEscape(s[1..], rest);
      assert [s[0]] + s[1..] == s;
    }
  }

  lemma StrOfQuoted(s: string, rest: string)
    ensures Str(Quoted(s) + rest) == Some((s, rest))
  {
    var body := Escape(s) + (['"'] + rest);
    assert Quoted(s) + rest == ['"'] + body;
    StrOfOpenQuote(body);
    StrBodyOfEscape(s, rest);
  }

  lemma StrOfOpenQuote(body: string)
    ensures Str(['"'] + body) == StrBody(body)
  {
    assert (['"'] + body)[0] == '"' && (['"'] + body)[1..] == body;
  }

  lemma MemberOfField(key: string, value: string, rest: string)
    ensures Member(Field(key, value) + rest, key) == Some((value, rest))
  {
    var afterKey := [':'] + (Quoted(value) + rest);
    assert Field(key, value) + rest == Quoted(key) + afterKey;
    StrOfQuoted(key, afterKey);
    LitOfChar(':', Quoted(value) + rest);
    StrOfQuoted(value, rest);
    MemberStages(Quoted(key) + afterKey, key, afterKey, Quoted(value) + rest);
  }

  /** `Member` is a string equal to the key, a colon, then a string. */
  lemma MemberStages(s: string, key: string, afterKey: string, r: string)
    requires Str(s) == Some((key, afterKey))
    requires Lit(afterKey, ':') == Some(r)
    ensures Member(s, key) == Str(r)
  {
  }

  lemma LitOfChar(c: char, rest: string)
    requires !IsWs(c)
    ensures Lit([c] + rest, c) == Some(rest)
  {
  }

  lemma AfterRefreshOfFields(d: CredsData, t: string)
    ensures AfterRefresh(d.deviceId, d.email, d.refresh, Field("token", d.token) + (['}'] + t))
         == if SkipWs(t) == [] then Some(d) else None
  {
    MemberOfField("token", d.token, ['}'] + t);
    LitOfChar('}', t);
  }

  lemma AfterEmailOfFields(d: CredsData, t: string)
    ensures AfterEmail(d.deviceId, d.email, Field("refresh", d.refresh) + ([','] + (Field("token", d.token) + (['}'] + t))))
         == if SkipWs(t) == [] then Some(d) else None
  {
    var rest := Field("token", d.token) + (['}'] + t);
    MemberOfField("refresh", d.refresh, [','] + rest);
    LitOfChar(',', rest);
    AfterRefreshOfFields(d, t);
  }

  lemma AfterDeviceIdOfFields(d: CredsData, t: string)
    ensures AfterDeviceId(d.deviceId, Field("email", d.email) + ([','] + (Field("refresh", d.refresh) + ([','] + (Field("token", d.token) + (['}'] + t))))))
         == if SkipWs(t) == [] then Some(d) else None
  {
    var rest := Field("refresh", d.refresh) + ([','] + (Field("token", d.token) + (['}'] + t)));
    MemberOfField("email", d.email, [','] + rest);
    LitOfChar(',', rest);
    AfterEmailOfFields(d, t);
  }

  /** The serialized record followed by `t`, regrouped so that each parsing stage sees
      its own field first. */
  function SerializedThen(d: CredsData, t: string): string
  {
    ['{'] + (Field("device_id", d.deviceId) + ([','] + (Field("email", d.email) + ([','] +
      (Field("refresh", d.refresh) + ([','] + (Field("token", d.token) + (['}'] + t))))))))
  }

  lemma Regroup(a: string, b: string, c: string, e: string, t: string)
    ensures (['{'] + (a + ([','] + (b + ([','] + (c + ([','] + (e + ['}'])))))))) + t
         == ['{'] + (a + ([','] + (b + ([','] + (c + ([','] + (e + (['}'] + t))))))))
  {
    var f4 := e + ['}'];
    var f3 := c + ([','] + f4);
    var f2 := b + ([','] + f3);
    var f1 := a + ([','] + f2);
    assert f4 + t == e + (['}'] + t);
    assert f3 + t == c + ([','] + (f4 + t));
    assert f2 + t == b + ([','] + (f3 + t));
    assert f1 + t == a + ([','] + (f2 + t));
  }

  lemma SerializedThenIsConcat(d: CredsData, t: string)
    ensures Serialize(d) + t == SerializedThen(d, t)
  {
    Regroup(Field("device_id", d.deviceId), Field("email", d.email), Field("refresh", d.refresh), Field("token", d.token), t);
  }

  /** Reading back the text written for a record gives the record, exactly when what
      follows it in the file is whitespace only. */
  lemma ParseSerialize(d: CredsData, t: string)
    ensures Parse(Serialize(d) + t) == if SkipWs(t) == [] then Some(d) else None
  {
    SerializedThenIsConcat(d, t);
    ParseSerializedThen(d, t);
  }

  lemma ParseSerializedThen(d: CredsData, t: string)
    ensures Parse(SerializedThen(d, t)) == if SkipWs(t) == [] then Some(d) else None
  {
    var rest := Field("email", d.email) + ([','] + (Field("refresh", d.refresh) + ([','] + (Field("token", d.token) + (['}'] + t)))));
    var r0 := Field("device_id", d.deviceId) + ([','] + rest);
    assert SerializedThen(d, t) == ['{'] + r0;
    OpeningStages(d.deviceId, rest);
    ParseStages(['{'] + r0, r0, d.deviceId, [','] + rest, rest);
    AfterDeviceIdOfFields(d, t);
  }

  lemma OpeningStages(deviceId: string, rest: string)
    ensures Lit(['{'] + (Field("device_id", deviceId) + ([','] + rest)), '{') == Some(Field("device_id", deviceId) + ([','] + rest))
    ensures Member(Field("device_id", deviceId) + ([','] + rest), "device_id") == Some((deviceId, [','] + rest))
    ensures Lit([','] + rest, ',') == Some(rest)
  {
    LitOfChar('{', Field("device_id", deviceId) + ([','] + rest));
    MemberOfField("device_id", deviceId, [','] + rest);
    LitOfChar(',', rest);
  }

  /** `Parse` is its first stages followed by `AfterDeviceId`. */
  lemma ParseStages(s: string, r0: string, deviceId: string, m: string, r1: string)
    requires Lit(s, '{') == Some(r0)
    requires Member(r0, "device_id") == Some((deviceId, m))
    requires Lit(m, ',') == Some(r1)
    ensures Parse(s) == AfterDeviceId(deviceId, r1)
  {
  }

  /** What `to_file` followed by `from_file` relies on: the written text reads back as
      the record it was written from. */
  lemma SerializeRoundTrip(d: CredsData)
    ensures Parse(Serialize(d)) == Some(d)
  {
    ParseSerialize(d, []);
    assert Serialize(d) + [] == Serialize(d);
  }

  /** An empty file, the state `from_file` creates when none exists, holds no record. */
  lemma EmptyFileHoldsNothing()
    ensures Parse([]) == None
  {
  }
}
