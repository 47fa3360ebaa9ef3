/** A percent-escaper in the manner of Guava's `PercentEscaper`: ASCII letters and digits and a
    configured set of further characters stand for themselves, a space may be written `+`, and
    every other character is written as the `%XY` triplets of its UTF-8 octets, with uppercase
    hexadecimal digits (section 2.1 of RFC 3986). `Unescape` is the matching decoder. */
module PercentEscaping {
  import opened Wrappers
  import opened Utf8

  /** The configuration `new PercentEscaper(safeChars, plusForSpace)`, with the characters of the
      `safeChars` string as a set. */
  datatype Escaper = Escaper(safeChars: set<char>, plusForSpace: bool)

  predicate IsAlphanumeric(c: char)
  {
    'a' <= c <= 'z' || 'A' <= c <= 'Z' || '0' <= c <= '9'
  }

  /** Characters the escaper leaves unchanged: letters and digits always, plus the configured ones. */
  predicate IsSafe(e: Escaper, c: char)
  {
    IsAlphanumeric(c) || c in e.safeChars
  }

  /** The configurations for which escaping can be undone: `%` is never safe, and when a space is
      written `+`, neither a space nor `+` itself is safe. */
  predicate Valid(e: Escaper)
  {
    '%' !in e.safeChars && (e.plusForSpace ==> ' ' !in e.safeChars && '+' !in e.safeChars)
  }

  /** The characters an escaper's output can contain. */
  predicate InOutput(e: Escaper, c: char)
  {
    IsSafe(e, c) || c == '%' || (e.plusForSpace && c == '+')
  }

  function HexDigit(n: nat): (c: char)
    requires n < 16
    ensures IsAlphanumeric(c) && !('a' <= c <= 'z')
  {
    if n < 10 then ('0' as int + n) as char else ('A' as int + n - 10) as char
  }

  /** The value of a hexadecimal digit of either case. */
  function HexValue(c: char): (r: Option<nat>)
    ensures r.Some? ==> r.value < 16
  {
    if '0' <= c <= '9' then Some(c as int - '0' as int)
    else if 'A' <= c <= 'F' then Some(c as int - 'A' as int + 10)
    else if 'a' <= c <= 'f' then Some(c as int - 'a' as int + 10)
    else None
  }

  lemma HexRoundTrip(n: nat)
    requires n < 16
    ensures HexValue(HexDigit(n)) == Some(n)
  {
  }

  /** `%XY` for each octet. */
  function PercentOctets(bs: seq<byte>): (r: string)
    ensures |r| == 3 * |bs|
    ensures forall i :: 0 <= i < |r| ==> r[i] == '%' || IsAlphanumeric(r[i])
  {
    if bs == [] then [] else ['%', HexDigit(bs[0] / 16), HexDigit(bs[0] % 16)] + PercentOctets(bs[1..])
  }

  /** How one character is written. */
  function EscapeChar(e: Escaper, c: char): (r: string)
    ensures |r| >= 1
    ensures forall i :: 0 <= i < |r| ==> InOutput(e, r[i])
  {
    if IsSafe(e, c) then [c]
    else if c == ' ' && e.plusForSpace then "+"
    else PercentOctets(EncodeChar(c))
  }

  /** `escaper.escape(s)`. */
  function Escape(e: Escaper, s: string): (r: string)
    ensures |r| >= |s|
    ensures forall i :: 0 <= i < |r| ==> InOutput(e, r[i])
  {
    if s == [] then [] else EscapeChar(e, s[0]) + Escape(e, s[1..])
  }

  /** The octets an escaped string stands for: `%XY` is one octet, `+` is a space when the escaper
      writes spaces that way, and any other character stands for its own UTF-8 octets. */
  function PercentDecode(e: Escaper, s: string): Option<seq<byte>>
  {
    if s == [] then Some([])
    else if s[0] == '%' then
      if |s| >= 3 && HexValue(s[1]).Some? && HexValue(s[2]).Some? then
        Prepend([HexValue(s[1]).value * 16 + HexValue(s[2]).value], PercentDecode(e, s[3..]))
      else None
    else if s[0] == '+' && e.plusForSpace then Prepend([0x20], PercentDecode(e, s[1..]))
    else Prepend(EncodeChar(s[0]), PercentDecode(e, s[1..]))
  }

  /** The string an escaped string stands for, if its octets are well-formed UTF-8. */
  function Unescape(e: Escaper, s: string): Option<string>
  {
    match PercentDecode(e, s)
    case None => None
    case Some(bs) => Decode(bs)
  }

  // Properties of Escape.

  /** A string made only of safe characters is its own escape. */
  lemma {:induction false} EscapeSafe(e: Escaper, s: string)
    requires forall i :: 0 <= i < |s| ==> IsSafe(e, s[i])
    ensures Escape(e, s) == s
  {
    if s != [] {
      EscapeSafe(e, s[1..]);
      assert [s[0]] + s[1..] == s;
    }
  }

  /** A space that is not safe is written `+` when the escaper says so. */
  lemma EscapeSpaceAsPlus(e: Escaper)
    requires e.plusForSpace && ' ' !in e.safeChars
    ensures EscapeChar(e, ' ') == "+"
  {
  }

  /** An ASCII character that is not safe (and is not a space written `+`) becomes one `%XY`. */
  lemma EscapeAsciiOctet(e: Escaper, c: char)
    requires c as int < 0x80 && !IsSafe(e, c) && !(c == ' ' && e.plusForSpace)
    ensures EscapeChar(e, c) == ['%', HexDigit(c as int / 16), HexDigit(c as int % 16)]
  {
  }

  /** Escaping a character that is not safe never yields that character itself. */
  lemma EscapedUnsafeAbsent(e: Escaper, s: string, c: char)
    requires !IsSafe(e, c) && c != '%' && !(e.plusForSpace && c == '+')
    ensures c !in Escape(e, s)
  {
  }

  // Escape followed by Unescape is the identity.

  lemma {:induction false} DecodePercentOctets(e: Escaper, bs: seq<byte>, rest: string)
    ensures PercentDecode(e, PercentOctets(bs) + rest) == Prepend(bs, PercentDecode(e, rest))
  {
    if bs == [] {
      assert PercentOctets(bs) + rest == rest;
      assert bs + [] == bs;
    } else {
      var b := bs[0];
      var s := PercentOctets(bs) + rest;
      var tail := PercentOctets(bs[1..]) + rest;
      assert s == ['%', HexDigit(b / 16), HexDigit(b % 16)] + tail;
      assert s[3..] == tail;
      HexRoundTrip(b / 16);
      HexRoundTrip(b % 16);
      assert HexValue(s[1]).value * 16 + HexValue(s[2]).value == b;
      DecodePercentOctets(e, bs[1..], rest);
      PrependPrepend([b], bs[1..], PercentDecode(e, rest));
      assert [b] + bs[1..] == bs;
    }
  }

  lemma DecodeEscapedChar(e: Escaper, c: char, rest: string)
    requires Valid(e)
    ensures PercentDecode(e, EscapeChar(e, c) + rest) == Prepend(EncodeChar(c), PercentDecode(e, rest))
  {
    var s := EscapeChar(e, c) + rest;
    if IsSafe(e, c) {
      assert s[0] == c && s[1..] == rest;
    } else if c == ' ' && e.plusForSpace {
      assert s[0] == '+' && s[1..] == rest;
    } else {
      DecodePercentOctets(e, EncodeChar(c), rest);
    }
  }

  lemma {:induction false} PercentDecodeEscape(e: Escaper, s: string)
    requires Valid(e)
    ensures PercentDecode(e, Escape(e, s)) == Some(Encode(s))
  {
    if s != [] {
      DecodeEscapedChar(e, s[0], Escape(e, s[1..]));
      PercentDecodeEscape(e, s[1..]);
    }
  }

  /** Unescaping an escaped string gives back the original string. */
  lemma UnescapeEscape(e: Escaper, s: string)
    requires Valid(e)
    ensures Unescape(e, Escape(e, s)) == Some(s)
  {
    PercentDecodeEscape(e, s);
    DecodeEncode(s);
  }

  /** Hence escaping loses nothing: distinct strings escape differently. */
  lemma EscapeInjective(e: Escaper, s: string, t: string)
    requires Valid(e) && Escape(e, s) == Escape(e, t)
    ensures s == t
  {
    UnescapeEscape(e, s);
    UnescapeEscape(e, t);
  }
}
