/** UTF-8, the encoding in which Rust writes a `String` to a file and in which
    `serde_json::from_reader` expects the bytes it reads: `Encode` is the encoding of a
    text, `DecodeBytes` the strict decoding that refuses overlong forms, surrogates and
    truncated sequences. */
module Utf8 {
  import opened Wrappers

  newtype byte = x: int | 0 <= x < 256

  predicate IsContinuation(b: byte) { 0x80 <= b < 0xC0 }

  /** The one to four bytes of a character, shortest form. */
  function EncodeChar(c: char): (r: seq<byte>)
    ensures 1 <= |r| <= 4
    ensures (|r| == 1) <==> (c as int < 0x80)
    ensures |r| == 1 ==> r[0] as int == c as int
    ensures 0x80 <= r[0] as int ==> 0x80 <= c as int
  {
    var n := c as int;
    if n < 0x80 then [n as byte]
    else if n < 0x800 then [(0xC0 + n / 64) as byte, (0x80 + n % 64) as byte]
    else if n < 0x10000 then
      var q := n / 64;
      [(0xE0 + q / 64) as byte, (0x80 + q % 64) as byte, (0x80 + n % 64) as byte]
    else
      var q := n / 64;
      var q2 := q / 64;
      [(0xF0 + q2 / 64) as byte, (0x80 + q2 % 64) as byte, (0x80 + q % 64) as byte, (0x80 + n % 64) as byte]
  }

  function Encode(s: seq<char>): seq<byte>
  {
    if s == [] then [] else EncodeChar(s[0]) + Encode(s[1..])
  }

  /** The character at the start of `b` and the number of bytes it takes, if the bytes
      there are a well-formed UTF-8 sequence. */
  function DecodeFirst(b: seq<byte>): (r: Option<(char, nat)>)
    requires |b| > 0
    ensures r.Some? ==> 1 <= r.value.1 <= |b|
    ensures b[0] < 0x80 ==> r == Some((b[0] as int as char, 1))
    ensures r.Some? && 0x80 <= b[0] ==> 0x80 <= r.value.0 as int
  {
    var b0 := b[0] as int;
    if b0 < 0x80 then Some((b0 as char, 1))
    else if 0xC2 <= b0 < 0xE0 && |b| >= 2 && IsContinuation(b[1]) then
      var n := (b0 - 0xC0) * 64 + (b[1] as int - 0x80);
      Some((n as char, 2))
    else if 0xE0 <= b0 < 0xF0 && |b| >= 3 && IsContinuation(b[1]) && IsContinuation(b[2]) then
      var n := ((b0 - 0xE0) * 64 + (b[1] as int - 0x80)) * 64 + (b[2] as int - 0x80);
      if 0x800 <= n && !(0xD800 <= n < 0xE000) then Some((n as char, 3)) else None
    else if 0xF0 <= b0 < 0xF5 && |b| >= 4 && IsContinuation(b[1]) && IsContinuation(b[2]) && IsContinuation(b[3]) then
      var n := (((b0 - 0xF0) * 64 + (b[1] as int - 0x80)) * 64 + (b[2] as int - 0x80)) * 64 + (b[3] as int - 0x80);
      if 0x10000 <= n < 0x110000 then Some((n as char, 4)) else None
    else None
  }

  function DecodeBytes(b: seq<byte>): Option<seq<char>>
    decreases |b|
  {
    if b == [] then Some([])
    else
      match DecodeFirst(b)
      case None => None
      case Some((c, k)) =>
        match DecodeBytes(b[k..])
        case None => None
        case Some(t) => Some([c] + t)
  }

  // ---------------------------------------------------------------- lemmas

  lemma DecodeFirstOfEncode(c: char, rest: seq<byte>)
    ensures DecodeFirst(EncodeChar(c) + rest) == Some((c, |EncodeChar(c)|))
  {
    var n := c as int;
    if n < 0x80 {
    } else if n < 0x800 {
      DecodeTwoBytes(c, rest);
    } else if n < 0x10000 {
      DecodeThreeBytes(c, rest);
    } else {
      DecodeFourBytes(c, rest);
    }
  }

  lemma DecodeTwoBytes(c: char, rest: seq<byte>)
    requires 0x80 <= c as int < 0x800
    ensures DecodeFirst(EncodeChar(c) + rest) == Some((c, 2))
  {
    var n := c as int;
    var b := EncodeChar(c) + rest;
    assert b[0] as int == 0xC0 + n / 64 && b[1] as int == 0x80 + n % 64;
    assert (n / 64) * 64 + n % 64 == n;
  }

  lemma DecodeThreeBytes(c: char, rest: seq<byte>)
    requires 0x800 <= c as int < 0x10000
    ensures DecodeFirst(EncodeChar(c) + rest) == Some((c, 3))
  {
    var n := c as int;
    var q := n / 64;
    var b := EncodeChar(c) + rest;
    assert b[0] as int == 0xE0 + q / 64 && b[1] as int == 0x80 + q % 64 && b[2] as int == 0x80 + n % 64;
    assert (q / 64) * 64 + q % 64 == q;
    assert q * 64 + n % 64 == n;
  }

  lemma DecodeFourBytes(c: char, rest: seq<byte>)
    requires 0x10000 <= c as int
    ensures DecodeFirst(EncodeChar(c) + rest) == Some((c, 4))
  {
    var n := c as int;
    var q := n / 64;
    var q2 := q / 64;
    var b := EncodeChar(c) + rest;
    assert b[0] as int == 0xF0 + q2 / 64 && b[1] as int == 0x80 + q2 % 64;
    assert b[2] as int == 0x80 + q % 64 && b[3] as int == 0x80 + n % 64;
    assert (q2 / 64) * 64 + q2 % 64 == q2;
    assert q2 * 64 + q % 64 == q;
    assert q * 64 + n % 64 == n;
  }

  lemma {:induction false} EncodeAppend(a: seq<char>, b: seq<char>)
    ensures Encode(a + b) == Encode(a) + Encode(b)
  {
    if a == [] {
      assert a + b == b;
    } else {
      assert (a + b)[0] == a[0] && (a + b)[1..] == a[1..] + b;
      EncodeAppend(a[1..], b);
    }
  }

  /** The encoding of a non-empty text, followed by more bytes, regrouped at its first
      character. */
  lemma EncodeThen(s: seq<char>, tail: seq<byte>)
    requires s != []
    ensures Encode(s) + tail == EncodeChar(s[0]) + (Encode(s[1..]) + tail)
  {
    assert Encode(s) == EncodeChar(s[0]) + Encode(s[1..]);
    Associate(EncodeChar(s[0]), Encode(s[1..]), tail);
  }

  lemma Associate(a: seq<byte>, b: seq<byte>, c: seq<byte>)
    ensures (a + b) + c == a + (b + c)
  {
  }

  lemma DecodeCons(c: char, rest: seq<byte>)
    ensures DecodeBytes(EncodeChar(c) + rest)
         == match DecodeBytes(rest) case None => None case Some(t) => Some([c] + t)
  {
    var b := EncodeChar(c) + rest;
    DecodeFirstOfEncode(c, rest);
    assert b[|EncodeChar(c)|..] == rest;
  }

  lemma ConsThen(s: seq<char>, u: seq<char>)
    requires s != []
    ensures [s[0]] + (s[1..] + u) == s + u
  {
    assert s == [s[0]] + s[1..];
  }

  /** Decoding a text's encoding followed by more bytes gives the text followed by the
      decoding of those bytes, and fails exactly when their decoding fails. */
  lemma {:induction false} DecodeAppend(s: seq<char>, tail: seq<byte>)
    ensures DecodeBytes(tail).None? ==> DecodeBytes(Encode(s) + tail).None?
    ensures DecodeBytes(tail).Some? ==> DecodeBytes(Encode(s) + tail) == Some(s + DecodeBytes(tail).value)
  {
    if s == [] {
      assert Encode(s) + tail == tail;
      if DecodeBytes(tail).Some? {
        assert s + DecodeBytes(tail).value == DecodeBytes(tail).value;
      }
    } else {
      DecodeAppend(s[1..], tail);
      DecodeAppendStep(s, tail);
    }
  }

  /** One step of `DecodeAppend`: from the text without its first character to the text. */
  lemma DecodeAppendStep(s: seq<char>, tail: seq<byte>)
    requires s != []
    requires DecodeBytes(tail).None? ==> DecodeBytes(Encode(s[1..]) + tail).None?
    requires DecodeBytes(tail).Some? ==> DecodeBytes(Encode(s[1..]) + tail) == Some(s[1..] + DecodeBytes(tail).value)
    ensures DecodeBytes(tail).None? ==> DecodeBytes(Encode(s) + tail).None?
    ensures DecodeBytes(tail).Some? ==> DecodeBytes(Encode(s) + tail) == Some(s + DecodeBytes(tail).value)
  {
    EncodeThen(s, tail);
    DecodeCons(s[0], Encode(s[1..]) + tail);
    if DecodeBytes(tail).Some? {
      ConsThen(s, DecodeBytes(tail).value);
    }
  }

  /** Every text decodes back from its encoding. */
  lemma DecodeEncode(s: seq<char>)
    ensures DecodeBytes(Encode(s)) == Some(s)
  {
    DecodeAppend(s, []);
    assert Encode(s) + [] == Encode(s);
    assert s + [] == s;
  }
}
