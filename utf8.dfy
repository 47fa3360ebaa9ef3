/** UTF-8 (RFC 3629): the octets a percent-escaper writes for a character outside its safe set. */
module Utf8 {
  import opened Wrappers

  /** An octet. */
  type byte = b: int | 0 <= b < 0x100

  predicate IsContinuation(b: byte) { 0x80 <= b < 0xC0 }

  /** The one to four octets that encode the Unicode scalar value `c`. */
  function EncodeChar(c: char): (r: seq<byte>)
    ensures 1 <= |r| <= 4
    ensures |r| == 1 <==> c as int < 0x80
    ensures |r| == 1 ==> r[0] == c as int
    ensures forall i :: 1 <= i < |r| ==> IsContinuation(r[i])
  {
    var n := c as int;
    if n < 0x80 then [n]
    else if n < 0x800 then [0xC0 + n / 0x40, 0x80 + n % 0x40]
    else if n < 0x1_0000 then [0xE0 + n / 0x1000, 0x80 + n / 0x40 % 0x40, 0x80 + n % 0x40]
    else [0xF0 + n / 0x4_0000, 0x80 + n / 0x1000 % 0x40, 0x80 + n / 0x40 % 0x40, 0x80 + n % 0x40]
  }

  /** The octets of a whole string, character by character. */
  function Encode(s: string): (r: seq<byte>)
    ensures |s| <= |r| <= 4 * |s|
  {
    if s == [] then [] else EncodeChar(s[0]) + Encode(s[1..])
  }

  /** The first character encoded at the front of `bs` and the number of octets it takes.
      Overlong forms, surrogates and values above U+10FFFF are rejected. */
  function DecodeChar(bs: seq<byte>): (r: Option<(char, nat)>)
    requires |bs| > 0
    ensures r.Some? ==> 1 <= r.value.1 <= |bs| && bs[..r.value.1] == EncodeChar(r.value.0)
  {
    var b0: int := bs[0];
    if b0 < 0x80 then
      Some((b0 as char, 1))
    else if 0xC0 <= b0 < 0xE0 && |bs| >= 2 && IsContinuation(bs[1]) then
      var n: int := (b0 - 0xC0) * 0x40 + (bs[1] as int - 0x80);
      if 0x80 <= n then
        EncodeTwo(n, bs[0], bs[1]);
        Some((n as char, 2))
      else None
    else if 0xE0 <= b0 < 0xF0 && |bs| >= 3 && IsContinuation(bs[1]) && IsContinuation(bs[2]) then
      var n: int := ((b0 - 0xE0) * 0x40 + (bs[1] as int - 0x80)) * 0x40 + (bs[2] as int - 0x80);
      if 0x800 <= n && !(0xD800 <= n < 0xE000) then
        EncodeThree(n, bs[0], bs[1], bs[2]);
        Some((n as char, 3))
      else None
    else if 0xF0 <= b0 < 0xF8 && |bs| >= 4 && IsContinuation(bs[1]) && IsContinuation(bs[2]) && IsContinuation(bs[3]) then
      var n: int := (((b0 - 0xF0) * 0x40 + (bs[1] as int - 0x80)) * 0x40 + (bs[2] as int - 0x80)) * 0x40 + (bs[3] as int - 0x80);
      if 0x1_0000 <= n < 0x11_0000 then
        EncodeFour(n, bs[0], bs[1], bs[2], bs[3]);
        Some((n as char, 4))
      else None
    else None
  }

  /** The string whose encoding is `bs`, if `bs` is well-formed UTF-8. */
  function Decode(bs: seq<byte>): (r: Option<string>)
    ensures r.Some? ==> Encode(r.value) == bs
    decreases |bs|
  {
    if bs == [] then Some([])
    else match DecodeChar(bs)
      case None => None
      case Some((c, k)) =>
        match Decode(bs[k..])
        case None => None
        case Some(rest) =>
          EncodeCons(c, rest, bs, k);
          Some([c] + rest)
  }

  lemma EncodeCons(c: char, rest: string, bs: seq<byte>, k: nat)
    requires k <= |bs| && bs[..k] == EncodeChar(c) && Encode(rest) == bs[k..]
    ensures Encode([c] + rest) == bs
  {
    assert ([c] + rest)[1..] == rest;
    assert bs == bs[..k] + bs[k..];
  }

  // Arithmetic of the multi-octet forms.

  lemma EncodeTwo(n: int, b0: byte, b1: byte)
    requires 0xC0 <= b0 < 0xE0 && IsContinuation(b1)
    requires n == (b0 as int - 0xC0) * 0x40 + (b1 as int - 0x80) && 0x80 <= n
    ensures 0 <= n < 0xD800
    ensures EncodeChar(n as char) == [b0, b1]
  {
  }

  lemma EncodeThree(n: int, b0: byte, b1: byte, b2: byte)
    requires 0xE0 <= b0 < 0xF0 && IsContinuation(b1) && IsContinuation(b2)
    requires n == ((b0 as int - 0xE0) * 0x40 + (b1 as int - 0x80)) * 0x40 + (b2 as int - 0x80)
    requires 0x800 <= n && !(0xD800 <= n < 0xE000)
    ensures n < 0x1_0000
    ensures EncodeChar(n as char) == [b0, b1, b2]
  {
    var m: int := (b0 as int - 0xE0) * 0x40 + (b1 as int - 0x80);
    assert n / 0x40 == m && n % 0x40 == b2 as int - 0x80;
    assert n / 0x1000 == m / 0x40;
    assert m / 0x40 == b0 as int - 0xE0 && m % 0x40 == b1 as int - 0x80;
  }

  lemma EncodeFour(n: int, b0: byte, b1: byte, b2: byte, b3: byte)
    requires 0xF0 <= b0 < 0xF8 && IsContinuation(b1) && IsContinuation(b2) && IsContinuation(b3)
    requires n == (((b0 as int - 0xF0) * 0x40 + (b1 as int - 0x80)) * 0x40 + (b2 as int - 0x80)) * 0x40 + (b3 as int - 0x80)
    requires 0x1_0000 <= n < 0x11_0000
    ensures EncodeChar(n as char) == [b0, b1, b2, b3]
  {
    var m1: int := (b0 as int - 0xF0) * 0x40 + (b1 as int - 0x80);
    var m2: int := m1 * 0x40 + (b2 as int - 0x80);
    assert n / 0x40 == m2 && n % 0x40 == b3 as int - 0x80;
    assert m2 / 0x40 == m1 && m2 % 0x40 == b2 as int - 0x80;
    assert m1 / 0x40 == b0 as int - 0xF0 && m1 % 0x40 == b1 as int - 0x80;
    assert n / 0x1000 == m2 / 0x40;
    assert n / 0x4_0000 == m1 / 0x40;
  }

  lemma DecodeTwoOctets(c: char, rest: seq<byte>)
    requires 0x80 <= c as int < 0x800
    ensures DecodeChar(EncodeChar(c) + rest) == Some((c, 2))
  {
    var n := c as int;
    assert (n / 0x40) * 0x40 + n % 0x40 == n;
  }

  lemma DecodeThreeOctets(c: char, rest: seq<byte>)
    requires 0x800 <= c as int < 0x1_0000
    ensures DecodeChar(EncodeChar(c) + rest) == Some((c, 3))
  {
    var n := c as int;
    assert (n / 0x1000) * 0x40 + n / 0x40 % 0x40 == n / 0x40;
    assert (n / 0x40) * 0x40 + n % 0x40 == n;
  }

  lemma DecodeFourOctets(c: char, rest: seq<byte>)
    requires 0x1_0000 <= c as int
    ensures DecodeChar(EncodeChar(c) + rest) == Some((c, 4))
  {
    var n := c as int;
    assert (n / 0x4_0000) * 0x40 + n / 0x1000 % 0x40 == n / 0x1000;
    assert (n / 0x1000) * 0x40 + n / 0x40 % 0x40 == n / 0x40;
    assert (n / 0x40) * 0x40 + n % 0x40 == n;
  }

  /** Decoding the octets of `c` at the front of any sequence gives back `c`. */
  lemma DecodeEncodedChar(c: char, rest: seq<byte>)
    ensures DecodeChar(EncodeChar(c) + rest) == Some((c, |EncodeChar(c)|))
  {
    var n := c as int;
    if n < 0x80 {
    } else if n < 0x800 {
      DecodeTwoOctets(c, rest);
    } else if n < 0x1_0000 {
      DecodeThreeOctets(c, rest);
    } else {
      DecodeFourOctets(c, rest);
    }
  }

  /** Every string survives encoding and decoding. */
  lemma {:induction false} DecodeEncode(s: string)
    ensures Decode(Encode(s)) == Some(s)
  {
    if s != [] {
      var head := EncodeChar(s[0]);
      var tail := Encode(s[1..]);
      DecodeEncodedChar(s[0], tail);
      assert (head + tail)[|head|..] == tail;
      DecodeEncode(s[1..]);
      assert [s[0]] + s[1..] == s;
    }
  }
}
