/** The credential store: one `Option<CredsData>` slot, read through four getters,
    replaced as a whole by `set_credentials`, loaded from and saved to `creds.json`.
    The file is modelled by its bytes, the UTF-8 encoding of the text serde writes;
    opening, creating and locking it are not. */
module Credentials {
  import opened Wrappers
  import opened CredsJson
  import opened Utf8

  /** `serde_json::from_reader` on the file's bytes: bytes that are not UTF-8 are refused
      (inside a string literal as an invalid code point, outside one as an unexpected
      character), and a UTF-8 file reads as its text does. */
  function Load(content: seq<byte>): Option<CredsData>
  {
    match DecodeBytes(content)
    case None => None
    case Some(text) => Parse(text)
  }

  class Credentials {
    /** The record, if one has been loaded or set. */
    var data: Option<CredsData>
    /** The bytes of `creds.json`. */
    var file: seq<byte>

    /** `from_file`: the store holds whatever record the file's text parses as, and is
        empty when it does not parse. A missing file is created empty, so it is `[]`. */
    constructor FromFile(content: seq<byte>)
      ensures file == content && data == Load(content)
      ensures Load(content).None? ==>
                DeviceId().None? && Email().None? && Token().None? && Refresh().None?
    {
      file := content;
      data := Load(content);
    }

    function DeviceId(): Option<string>
      reads this
    {
      match data
      case Some(d) => Some(d.deviceId)
      case None => None
    }

    function Email(): Option<string>
      reads this
    {
      match data
      case Some(d) => Some(d.email)
      case None => None
    }

    function Token(): Option<string>
      reads this
    {
      match data
      case Some(d) => Some(d.token)
      case None => None
    }

    function Refresh(): Option<string>
      reads this
    {
      match data
      case Some(d) => Some(d.refresh)
      case None => None
    }

    /** `set_credentials`: the arguments come in the order device id, email, token,
        refresh, and each getter afterwards returns its own argument. */
    method SetCredentials(deviceId: string, email: string, token: string, refresh: string)
      modifies this`data
      ensures data == Some(CredsData(deviceId, email, refresh, token))
      ensures DeviceId() == Some(deviceId) && Email() == Some(email)
      ensures Token() == Some(token) && Refresh() == Some(refresh)
    {
      data := Some(CredsData(deviceId := deviceId, email := email, refresh := refresh, token := token));
    }

    /** `to_file`: an empty store writes nothing; otherwise the file holds exactly the
        record's text and reads back as the record. (The source does not truncate the
        file first; see `OverwriteFromStart`.) */
    method ToFile()
      modifies this`file
      ensures data.None? ==> file == old(file)
      ensures data.Some? ==> file == Encode(Serialize(data.value)) && Load(file) == data
    {
      if data.Some? {
        file := Encode(Serialize(data.value));
        WrittenRecordLoads(data.value);
      }
    }
  }

  /** The four getters agree on whether a record is present. */
  lemma GettersAllOrNothing(c: Credentials)
    ensures c.DeviceId().Some? == c.Email().Some? == c.Token().Some? == c.Refresh().Some?
    ensures c.DeviceId().Some? <==> c.data.Some?
  {
  }

  /** A getter is a projection of the one record: the four values, when present, are the
      four fields of the same `CredsData`, with `token` and `refresh` not swapped. */
  lemma GettersProjectRecord(c: Credentials)
    requires c.data.Some?
    ensures c.data == Some(CredsData(c.DeviceId().value, c.Email().value, c.Refresh().value, c.Token().value))
  {
  }

  // ---------------------------------------------------------------- reading back

  /** The truncating write: the record's bytes alone read back as the record. */
  lemma WrittenRecordLoads(d: CredsData)
    ensures Load(Encode(Serialize(d))) == Some(d)
  {
    DecodeEncode(Serialize(d));
    SerializeRoundTrip(d);
  }

  /** The bytes serde_json skips after the value: space, tab, line feed, carriage return. */
  predicate IsWsByte(b: byte) { b == 0x20 || b == 0x09 || b == 0x0A || b == 0x0D }

  predicate OnlyWhitespace(bytes: seq<byte>)
  {
    forall i :: 0 <= i < |bytes| ==> IsWsByte(bytes[i])
  }

  /** Bytes decode to whitespace-only text exactly when every one of them is a
      whitespace byte; any other byte, a stray continuation byte included, is refused. */
  lemma {:induction false} WhitespaceBytes(bytes: seq<byte>)
    ensures (DecodeBytes(bytes).Some? && SkipWs(DecodeBytes(bytes).value) == []) <==> OnlyWhitespace(bytes)
  {
    if bytes != [] {
      var rest := bytes[1..];
      if bytes[0] < 0x80 {
        var c := bytes[0] as int as char;
        assert IsWs(c) <==> IsWsByte(bytes[0]);
        WhitespaceBytes(rest);
        if DecodeBytes(rest).Some? {
          var u := DecodeBytes(rest).value;
          assert DecodeBytes(bytes) == Some([c] + u);
          assert ([c] + u)[1..] == u;
        }
        assert OnlyWhitespace(bytes) <==> IsWsByte(bytes[0]) && OnlyWhitespace(rest) by {
          assert forall i :: 0 <= i < |rest| ==> rest[i] == bytes[i + 1];
        }
      } else {
        assert !IsWsByte(bytes[0]);
        if DecodeBytes(bytes).Some? {
          var f := DecodeFirst(bytes);
          assert f.Some?;
          var u := DecodeBytes(bytes).value;
          assert u[0] == f.value.0;
          assert !IsWs(u[0]);
        }
      }
    }
  }

  // ---------------------------------------------------------------- the file as written

  /** The bytes `to_file` as written leaves behind: the file is opened for writing
      without truncation, so the new bytes overwrite its start and any older bytes beyond
      the new text's length in bytes stay in place. */
  function OverwriteFromStart(previous: seq<byte>, written: seq<byte>): (r: seq<byte>)
    ensures |r| == if |previous| <= |written| then |written| else |previous|
    ensures r[..|written|] == written
    ensures forall i :: |written| <= i < |r| ==> r[i] == previous[i]
  {
    if |previous| <= |written| then written else written + previous[|written|..]
  }

  /** Whatever of the previous bytes survives past the first `n`. */
  function Leftover(previous: seq<byte>, n: nat): seq<byte>
  {
    if |previous| <= n then [] else previous[n..]
  }

  /** Writing a record over an older file reads back as that record exactly when every
      byte left of the older file past the new record's bytes is a whitespace byte. */
  lemma OverwriteReload(previous: seq<byte>, d: CredsData)
    ensures Load(OverwriteFromStart(previous, Encode(Serialize(d))))
         == if OnlyWhitespace(Leftover(previous, |Encode(Serialize(d))|)) then Some(d) else None
  {
    OverwriteIsConcat(previous, Encode(Serialize(d)));
    LoadRecordThen(d, Leftover(previous, |Encode(Serialize(d))|));
  }

  lemma OverwriteIsConcat(previous: seq<byte>, written: seq<byte>)
    ensures OverwriteFromStart(previous, written) == written + Leftover(previous, |written|)
  {
  }

  /** A record's bytes followed by more bytes load as the record exactly when those bytes
      are whitespace. */
  lemma LoadRecordThen(d: CredsData, rest: seq<byte>)
    ensures Load(Encode(Serialize(d)) + rest) == if OnlyWhitespace(rest) then Some(d) else None
  {
    DecodeAppend(Serialize(d), rest);
    WhitespaceBytes(rest);
    if DecodeBytes(rest).Some? {
      ParseSerialize(d, DecodeBytes(rest).value);
    }
  }

  lemma {:induction false} EscapeAppend(a: string, b: string)
    ensures Escape(a + b) == Escape(a) + Escape(b)
  {
    if a == [] {
      assert a + b == b;
    } else {
      assert (a + b)[0] == a[0] && (a + b)[1..] == a[1..] + b;
      EscapeAppend(a[1..], b);
    }
  }

  /** The record's text up to the opening quote of the token's value. */
  function TokenPrefix(d: CredsData): string
  {
    ['{'] + Field("device_id", d.deviceId) + [','] + Field("email", d.email) + [','] +
      Field("refresh", d.refresh) + [','] + Quoted("token") + [':'] + ['"']
  }

  lemma RegroupAtToken(a: string, b: string, c: string, k: string, v: string)
    ensures ['{'] + (a + ([','] + (b + ([','] + (c + ([','] + ((k + ([':'] + (['"'] + (v + ['"'])))) + ['}'])))))))
         == (['{'] + a + [','] + b + [','] + c + [','] + k + [':'] + ['"']) + (v + ['"', '}'])
  {
    var f4 := (k + ([':'] + (['"'] + (v + ['"'])))) + ['}'];
    assert f4 == (k + [':'] + ['"']) + (v + ['"', '}']);
    var f3 := c + ([','] + f4);
    assert f3 == (c + [','] + k + [':'] + ['"']) + (v + ['"', '}']);
    var f2 := b + ([','] + f3);
    assert f2 == (b + [','] + c + [','] + k + [':'] + ['"']) + (v + ['"', '}']);
    var f1 := a + ([','] + f2);
    assert f1 == (a + [','] + b + [','] + c + [','] + k + [':'] + ['"']) + (v + ['"', '}']);
  }

  /** The token's escaped value is followed only by the closing quote and brace. */
  lemma SerializeSplitsAtToken(d: CredsData)
    ensures Serialize(d) == TokenPrefix(d) + (Escape(d.token) + ['"', '}'])
  {
    RegroupAtToken(Field("device_id", d.deviceId), Field("email", d.email), Field("refresh", d.refresh),
                   Quoted("token"), Escape(d.token));
  }

  /** A record whose token ends in `tail` is the shared text before it, then `tail`'s
      escape, then the closing quote and brace. */
  lemma TokenEnding(d: CredsData, tail: string)
    ensures Serialize(d.(token := d.token + tail))
         == (TokenPrefix(d) + Escape(d.token)) + (Escape(tail) + ['"', '}'])
  {
    var e := d.(token := d.token + tail);
    SerializeSplitsAtToken(e);
    assert TokenPrefix(e) == TokenPrefix(d);
    EscapeAppend(d.token, tail);
    Reassociate(TokenPrefix(d), Escape(d.token), Escape(tail), ['"', '}']);
  }

  lemma Reassociate(p: string, a: string, b: string, q: string)
    ensures p + ((a + b) + q) == (p + a) + (b + q)
  {
  }

  lemma BraceIsNotWhitespace(previous: seq<byte>, n: nat)
    requires |previous| == n + 1 && previous[n] == 0x7D
    ensures !OnlyWhitespace(Leftover(previous, n))
  {
    assert Leftover(previous, n)[0] == 0x7D;
  }

  /** Over an older file one byte longer than the new record's bytes and ending in a
      closing brace, that old brace stays behind and the file no longer loads. */
  lemma ClosingBraceLeftOver(previous: seq<byte>, d: CredsData)
    requires |previous| == |Encode(Serialize(d))| + 1 && previous[|previous| - 1] == 0x7D
    ensures Load(OverwriteFromStart(previous, Encode(Serialize(d)))) == None
  {
    var w := Encode(Serialize(d));
    BraceIsNotWhitespace(previous, |w|);
    OverwriteReload(previous, d);
  }

  /** Writing the shared text and a `narrow` ending over the shared text and an ending one
      byte wider that closes with a brace leaves that brace behind. */
  lemma WiderEndingLeftOver(shared: string, wide: string, narrow: string, d: CredsData)
    requires Serialize(d) == shared + narrow
    requires |Encode(wide)| == |Encode(narrow)| + 1 && Encode(wide)[|Encode(wide)| - 1] == 0x7D
    ensures Load(OverwriteFromStart(Encode(shared + wide), Encode(Serialize(d)))) == None
  {
    EncodeAppend(shared, wide);
    EncodeAppend(shared, narrow);
    ClosingBraceLeftOver(Encode(shared + wide), d);
  }

  lemma EndingBytes()
    ensures Encode(['x', '"', '}']) == [0x78, 0x22, 0x7D]
    ensures Encode(['"', '}']) == [0x22, 0x7D]
    ensures Encode(['\U{E9}', '"', '}']) == [0xC3, 0xA9, 0x22, 0x7D]
    ensures Encode(['a', '"', '}']) == [0x61, 0x22, 0x7D]
  {
  }

  lemma EscapedEndings()
    ensures Escape("x") + ['"', '}'] == ['x', '"', '}']
    ensures Escape("") + ['"', '}'] == ['"', '}']
    ensures Escape("\U{E9}") + ['"', '}'] == ['\U{E9}', '"', '}']
    ensures Escape("a") + ['"', '}'] == ['a', '"', '}']
  {
  }

  /** A counterexample to the as-written `to_file`: if the file holds a record whose
      token is one character longer (an earlier login), saving the new record leaves the
      old closing brace behind, and the next `from_file` finds no record. */
  lemma OverwriteLosesShorterRecord(d: CredsData)
    ensures Load(OverwriteFromStart(Encode(Serialize(d.(token := d.token + "x"))), Encode(Serialize(d)))) == None
  {
    var shared := TokenPrefix(d) + Escape(d.token);
    TokenEnding(d, "x");
    TokenEnding(d, "");
    assert d.(token := d.token + "") == d;
    EscapedEndings();
    EndingBytes();
    WiderEndingLeftOver(shared, ['x', '"', '}'], ['"', '}'], d);
  }

  /** The overwrite is measured in bytes, not characters: a token ending in `é` instead
      of `a` gives texts of the same length in characters, yet the older one is a byte
      longer in UTF-8 and its closing brace stays behind. */
  lemma OverwriteCountsBytes(d: CredsData)
    ensures var previous := Serialize(d.(token := d.token + "\U{E9}"));
            var written := Serialize(d.(token := d.token + "a"));
            && |previous| == |written|
            && Load(OverwriteFromStart(Encode(previous), Encode(written))) == None
  {
    var shared := TokenPrefix(d) + Escape(d.token);
    TokenEnding(d, "\U{E9}");
    TokenEnding(d, "a");
    EscapedEndings();
    EndingBytes();
    WiderEndingLeftOver(shared, ['\U{E9}', '"', '}'], ['a', '"', '}'], d.(token := d.token + "a"));
  }
}
