/** Character-string helpers: splitting and joining at a separator, counting, and decimal numerals. */
module Text {
  import opened Wrappers

  /** The pieces of `s` between occurrences of `d`; like Java's `split` with a negative limit,
      empty pieces are kept, so there is always at least one piece. */
  function Split(s: string, d: char): (r: seq<string>)
    ensures |r| >= 1
  {
    if s == [] then [[]]
    else
      var rest := Split(s[1..], d);
      if s[0] == d then [[]] + rest
      else [[s[0]] + rest[0]] + rest[1..]
  }

  /** The pieces joined with `d` between consecutive ones, as `Collectors.joining`. */
  function Join(parts: seq<string>, d: char): string
  {
    if |parts| == 0 then ""
    else if |parts| == 1 then parts[0]
    else parts[0] + [d] + Join(parts[1..], d)
  }

  /** The number of occurrences of `c` in `s`. */
  function Count(s: string, c: char): nat
  {
    if s == [] then 0 else (if s[0] == c then 1 else 0) + Count(s[1..], c)
  }

  lemma {:induction false} CountAppend(a: string, b: string, c: char)
    ensures Count(a + b, c) == Count(a, c) + Count(b, c)
  {
    if a == [] {
      assert a + b == b;
    } else {
      assert (a + b)[1..] == a[1..] + b;
      CountAppend(a[1..], b, c);
    }
  }

  lemma {:induction false} CountAbsent(s: string, c: char)
    requires c !in s
    ensures Count(s, c) == 0
  {
    if s != [] {
      CountAbsent(s[1..], c);
    }
  }

  lemma {:induction false} SplitAbsent(p: string, d: char)
    requires d !in p
    ensures Split(p, d) == [p]
  {
    if p != [] {
      SplitAbsent(p[1..], d);
      assert [p[0]] + p[1..] == p;
    }
  }

  /** Splitting at the first separator peels off exactly the piece before it. */
  lemma {:induction false} SplitFirst(p: string, rest: string, d: char)
    requires d !in p
    ensures Split(p + [d] + rest, d) == [p] + Split(rest, d)
  {
    var s := p + [d] + rest;
    if p == [] {
      assert s[1..] == rest;
    } else {
      assert s[1..] == p[1..] + [d] + rest;
      SplitFirst(p[1..], rest, d);
      assert [p[0]] + p[1..] == p;
    }
  }

  /** Join and Split are inverse when no piece contains the separator. */
  lemma {:induction false} SplitJoin(parts: seq<string>, d: char)
    requires |parts| >= 1
    requires forall i :: 0 <= i < |parts| ==> d !in parts[i]
    ensures Split(Join(parts, d), d) == parts
  {
    if |parts| == 1 {
      SplitAbsent(parts[0], d);
    } else {
      SplitJoin(parts[1..], d);
      SplitFirst(parts[0], Join(parts[1..], d), d);
      assert [parts[0]] + parts[1..] == parts;
    }
  }

  /** Joining n pieces free of the separator writes exactly n - 1 separators. */
  lemma {:induction false} CountJoin(parts: seq<string>, d: char)
    requires |parts| >= 1
    requires forall i :: 0 <= i < |parts| ==> d !in parts[i]
    ensures Count(Join(parts, d), d) == |parts| - 1
  {
    if |parts| == 1 {
      CountAbsent(parts[0], d);
    } else {
      CountJoin(parts[1..], d);
      CountAppend(parts[0] + [d], Join(parts[1..], d), d);
      CountAppend(parts[0], [d], d);
      CountAbsent(parts[0], d);
    }
  }

  lemma {:induction false} JoinNotShorter(parts: seq<string>, d: char)
    requires |parts| >= 1
    ensures |Join(parts, d)| >= |parts[0]|
  {
  }

  // Decimal numerals, as Integer.toString writes them.

  predicate IsDigit(c: char) { '0' <= c <= '9' }

  function DigitChar(n: nat): (c: char)
    requires n < 10
    ensures IsDigit(c) && c as int - '0' as int == n
  {
    ('0' as int + n) as char
  }

  /** The shortest decimal numeral of `n`. */
  function NatDigits(n: nat): (r: string)
    ensures |r| >= 1
    ensures forall i :: 0 <= i < |r| ==> IsDigit(r[i])
    ensures r[0] == '0' <==> n == 0
    ensures |r| > 1 ==> r[0] != '0'
  {
    if n < 10 then [DigitChar(n)] else NatDigits(n / 10) + [DigitChar(n % 10)]
  }

  /** The decimal numeral of `i`, with a leading `-` when negative: digits after the sign, no
      leading zero, and zero written `0` without a sign. */
  function Decimal(i: int): (r: string)
    ensures |r| >= 1 && (r[0] == '-' <==> i < 0)
    ensures var start := if i < 0 then 1 else 0;
      |r| > start &&
      (forall k :: start <= k < |r| ==> IsDigit(r[k])) &&
      (r[start] == '0' ==> r == "0")
  {
    if i < 0 then "-" + NatDigits(-i) else NatDigits(i)
  }

  /** The value of a non-empty string of decimal digits, if it is one. */
  function ParseNat(s: string): Option<nat>
  {
    if |s| == 0 || !IsDigit(s[|s| - 1]) then None
    else
      var last := s[|s| - 1] as int - '0' as int;
      if |s| == 1 then Some(last)
      else match ParseNat(s[..|s| - 1])
        case None => None
        case Some(high) => Some(high * 10 + last)
  }

  /** The value of an optionally negative decimal numeral, if it is one. */
  function ParseDecimal(s: string): Option<int>
  {
    if |s| > 0 && s[0] == '-' then
      match ParseNat(s[1..])
      case None => None
      case Some(n) => Some(-(n as int))
    else match ParseNat(s)
      case None => None
      case Some(n) => Some(n as int)
  }

  lemma {:induction false} ParseNatDigits(n: nat)
    ensures ParseNat(NatDigits(n)) == Some(n)
  {
    if n >= 10 {
      var s := NatDigits(n);
      ParseNatDigits(n / 10);
      assert s[..|s| - 1] == NatDigits(n / 10);
    }
  }

  /** Reading back the numeral of any integer gives the integer. */
  lemma {:induction false} DecimalRoundTrip(i: int)
    ensures ParseDecimal(Decimal(i)) == Some(i)
  {
    if i < 0 {
      var digits := NatDigits(-i);
      ParseNatDigits(-i);
      assert ("-" + digits)[1..] == digits;
      assert ParseDecimal("-" + digits) == Some(-(-i));
    } else {
      var digits := NatDigits(i);
      ParseNatDigits(i);
      assert digits[0] != '-';
    }
  }
}
