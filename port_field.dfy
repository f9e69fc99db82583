/** The `port` field of the gateway's `vm/ip` reply arrives as a JSON string and is decoded
    into a `u16` by Rust's `u16::from_str` (radix 10): an optional leading `+`, then one or
    more ASCII digits whose value fits in 16 bits. Anything else is an error. */
module PortField {
  import opened Wrappers

  newtype u16 = x: int | 0 <= x < 0x1_0000

  predicate IsDigit(c: char) { '0' <= c <= '9' }

  predicate AllDigits(s: string) { forall i :: 0 <= i < |s| ==> IsDigit(s[i]) }

  /** The number a string of decimal digits denotes, most significant digit first. */
  function DigitsValue(s: string): nat
    requires AllDigits(s)
  {
    if s == [] then 0
    else 10 * DigitsValue(s[..|s| - 1]) + ((s[|s| - 1] as int) - ('0' as int))
  }

  /** The digits `from_str` reads: the text after one optional leading `+`. A `-` is
      not stripped, since the target type is unsigned. */
  function Unsigned(s: string): string
  {
    if |s| > 0 && s[0] == '+' then s[1..] else s
  }

  /** `u16::from_str`: `None` for the empty string, a lone sign, any non-digit and any
      value above 65535. */
  function ParseU16(s: string): (r: Option<u16>)
    ensures r.Some? <==> Unsigned(s) != [] && AllDigits(Unsigned(s)) && DigitsValue(Unsigned(s)) < 0x1_0000
    ensures r.Some? ==> r.value as int == DigitsValue(Unsigned(s))
  {
    var d := Unsigned(s);
    if d == [] || !AllDigits(d) then None
    else
      var v := DigitsValue(d);
      if v < 0x1_0000 then Some(v as u16) else None
  }

  function DigitChar(n: nat): (c: char)
    requires n < 10
    ensures IsDigit(c) && (c as int) - ('0' as int) == n
  {
    (('0' as int) + n) as char
  }

  /** The shortest decimal form of `n`, as `to_string` writes it. */
  function Decimal(n: nat): (s: string)
    ensures s != [] && AllDigits(s)
  {
    if n < 10 then [DigitChar(n)] else Decimal(n / 10) + [DigitChar(n % 10)]
  }

  lemma {:induction false} DecimalValue(n: nat)
    ensures DigitsValue(Decimal(n)) == n
  {
    if n >= 10 {
      var s := Decimal(n);
      assert s[..|s| - 1] == Decimal(n / 10);
      DecimalValue(n / 10);
    }
  }

  /** Every port the gateway can report in decimal decodes back to itself, with or
      without a leading `+`. */
  lemma ParseDecimalRoundTrip(p: u16)
    ensures ParseU16(Decimal(p as nat)) == Some(p)
    ensures ParseU16("+" + Decimal(p as nat)) == Some(p)
  {
    DecimalValue(p as nat);
    var d := Decimal(p as nat);
    assert Unsigned(d) == d by { assert d[0] != '+'; }
    assert Unsigned("+" + d) == d;
  }

  /** Leading zeros are accepted and do not change the value. */
  lemma {:induction false} LeadingZeros(s: string)
    requires AllDigits(s)
    ensures AllDigits("0" + s) && DigitsValue("0" + s) == DigitsValue(s)
  {
    var z := "0" + s;
    assert AllDigits(z) by { assert forall i :: 0 < i < |z| ==> z[i] == s[i - 1]; }
    if s != [] {
      assert z[..|z| - 1] == "0" + s[..|s| - 1];
      LeadingZeros(s[..|s| - 1]);
    }
  }

  /** The malformed values the source treats as errors rather than a default. */
  lemma RejectedPorts()
    ensures ParseU16("") == None
    ensures ParseU16("+") == None
    ensures ParseU16("abc") == None
    ensures ParseU16("-1") == None
    ensures ParseU16("65536") == None
    ensures ParseU16("65535") == Some(65535)
  {
    assert !AllDigits("abc") by { assert !IsDigit("abc"[0]); }
    assert !AllDigits("-1") by { assert !IsDigit("-1"[0]); }
    var big := "65536";
    assert big[..4] == "6553";
    assert "6553"[..3] == "655";
    assert "655"[..2] == "65";
    assert "65"[..1] == "6";
    assert "6"[..0] == "";
    var top := "65535";
    assert top[..4] == "6553";
  }
}
