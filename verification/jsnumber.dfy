/**
  ECMAScript's global `parseInt(string)` with no radix argument, over
  unbounded integers. `NaN` is `None`.
 */
module JsNumber {
  import opened Wrappers
  import opened Strings

  /** The value of an ASCII digit or letter as a digit of a base up to 36; 36 for anything else. */
  function DigitValue(c: char): nat {
    if '0' <= c <= '9' then c as int - '0' as int
    else if 'a' <= c <= 'z' then c as int - 'a' as int + 10
    else if 'A' <= c <= 'Z' then c as int - 'A' as int + 10
    else 36
  }

  predicate IsRadixDigit(c: char, radix: nat) {
    DigitValue(c) < radix
  }

  /** The decimal digit character for `v`. */
  function DigitChar(v: nat): (c: char)
    requires v < 10
    ensures IsRadixDigit(c, 10) && DigitValue(c) == v
  {
    ('0' as int + v) as char
  }

  /** The longest prefix of `s` made of digits of `radix`. */
  function DigitPrefix(s: string, radix: nat): (d: string)
    ensures |d| <= |s| && d == s[..|d|]
    ensures forall k :: 0 <= k < |d| ==> IsRadixDigit(d[k], radix)
    ensures |d| < |s| ==> !IsRadixDigit(s[|d|], radix)
  {
    if |s| > 0 && IsRadixDigit(s[0], radix) then [s[0]] + DigitPrefix(s[1..], radix) else []
  }

  /** The number a digit string denotes in `radix`, most significant digit first. */
  function Value(d: string, radix: nat): nat {
    if |d| == 0 then 0 else Value(d[..|d| - 1], radix) * radix + DigitValue(d[|d| - 1])
  }

  /**
    `parseInt(s)`: skip leading white space, take an optional sign, then read
    the magnitude; no digits at all is `NaN`.
   */
  function ParseInt(s: string): Option<int> {
    ParseSigned(TrimStart(s))
  }

  /** `parseInt` on text that no longer starts with white space. */
  function ParseSigned(t: string): Option<int> {
    if |t| > 0 && t[0] == '-' then
      match ParseMagnitude(t[1..])
      case Some(v) => Some(-(v as int))
      case None => None
    else if |t| > 0 && t[0] == '+' then ParseMagnitude(t[1..])
    else ParseMagnitude(t)
  }

  /**
    The unsigned part of `parseInt`: base 16 after a `0x`/`0X` prefix, base 10
    otherwise, read as the longest run of digits of that base.
   */
  function ParseMagnitude(u: string): Option<nat> {
    var hex := |u| >= 2 && u[0] == '0' && (u[1] == 'x' || u[1] == 'X');
    var radix := if hex then 16 else 10;
    var d := DigitPrefix(if hex then u[2..] else u, radix);
    if |d| == 0 then None else Some(Value(d, radix))
  }

  /** The canonical decimal spelling of `n`: no sign, no leading zero. */
  function Decimal(n: nat): (d: string)
    ensures |d| > 0
    ensures forall k :: 0 <= k < |d| ==> IsRadixDigit(d[k], 10)
    ensures |d| > 1 ==> d[0] != '0'
    ensures Value(d, 10) == n
  {
    if n < 10 then [DigitChar(n)]
    else
      var hi := Decimal(n / 10);
      assert (hi + [DigitChar(n % 10)])[..|hi|] == hi;
      hi + [DigitChar(n % 10)]
  }

  /** The digit prefix of a digit string followed by a non-digit is that digit string. */
  lemma {:induction false} DigitPrefixOfDigits(d: string, rest: string, radix: nat)
    requires forall k :: 0 <= k < |d| ==> IsRadixDigit(d[k], radix)
    requires |rest| > 0 ==> !IsRadixDigit(rest[0], radix)
    ensures DigitPrefix(d + rest, radix) == d
    decreases |d|
  {
    if |d| > 0 {
      assert (d + rest)[1..] == d[1..] + rest;
      DigitPrefixOfDigits(d[1..], rest, radix);
      assert d == [d[0]] + d[1..];
    } else {
      assert d + rest == rest;
    }
  }

  /**
    `parseInt` reads a decimal number back from its spelling, and stops at the
    first character that cannot continue it (a lone `0` followed by `x` would
    start a hexadecimal number instead).
   */
  lemma ParseIntDecimal(n: nat, rest: string)
    requires |rest| > 0 ==> !IsRadixDigit(rest[0], 10)
    requires n == 0 && |rest| > 0 ==> rest[0] != 'x' && rest[0] != 'X'
    ensures ParseInt(Decimal(n) + rest) == Some(n)
  {
    var s := Decimal(n) + rest;
    assert s[0] == Decimal(n)[0];
    DigitNotWhite(s[0]);
    assert TrimStart(s) == s;
    MagnitudeDecimal(n, rest);
  }

  lemma MagnitudeDecimal(n: nat, rest: string)
    requires |rest| > 0 ==> !IsRadixDigit(rest[0], 10)
    requires n == 0 && |rest| > 0 ==> rest[0] != 'x' && rest[0] != 'X'
    ensures ParseMagnitude(Decimal(n) + rest) == Some(n)
  {
    var d := Decimal(n);
    DigitPrefixOfDigits(d, rest, 10);
  }

  /** A leading minus sign negates. */
  lemma ParseIntNegative(n: nat, rest: string)
    requires |rest| > 0 ==> !IsRadixDigit(rest[0], 10)
    requires n == 0 && |rest| > 0 ==> rest[0] != 'x' && rest[0] != 'X'
    ensures ParseInt("-" + Decimal(n) + rest) == Some(-(n as int))
  {
    MagnitudeDecimal(n, rest);
    ParseIntMinus(Decimal(n), rest);
  }

  /** `parseInt` of `-` followed by `d + rest` is the negated magnitude of `d + rest`, or `NaN`. */
  lemma ParseIntMinus(d: string, rest: string)
    ensures ParseInt("-" + d + rest) == match ParseMagnitude(d + rest)
      case Some(v) => Some(-(v as int))
      case None => None
  {
    var u := d + rest;
    var s := "-" + d + rest;
    assert s == "-" + u;
    assert s[0] == '-' && !IsWhite(s[0]);
    TrimStartPlain(s);
    assert s[1..] == u;
  }

  lemma DigitNotWhite(c: char)
    requires IsRadixDigit(c, 10)
    ensures !IsWhite(c) && c != '-' && c != '+'
  {
  }

  /** Leading white space is skipped. */
  lemma ParseIntSkipsWhite(w: string, s: string)
    requires forall k :: 0 <= k < |w| ==> IsWhite(w[k])
    requires |s| > 0 ==> !IsWhite(s[0])
    ensures ParseInt(w + s) == ParseInt(s)
  {
    TrimStartWhitePrefix(w, s);
    assert ParseInt(w + s) == ParseSigned(s);
  }

  lemma {:induction false} TrimStartWhitePrefix(w: string, s: string)
    requires forall k :: 0 <= k < |w| ==> IsWhite(w[k])
    requires |s| > 0 ==> !IsWhite(s[0])
    ensures TrimStart(w + s) == TrimStart(s) == s
    decreases |w|
  {
    if |w| > 0 {
      var ws := w + s;
      assert ws[0] == w[0] && IsWhite(ws[0]);
      assert ws[1..] == w[1..] + s;
      assert TrimStart(ws) == TrimStart(ws[1..]);
      TrimStartWhitePrefix(w[1..], s);
    } else {
      assert w + s == s;
      TrimStartPlain(s);
    }
  }

  lemma TrimStartPlain(s: string)
    requires |s| > 0 ==> !IsWhite(s[0])
    ensures TrimStart(s) == s
  {
  }

  /** Text that starts with neither white space, a sign nor a digit is not a number. */
  lemma ParseIntNaN(s: string)
    requires |s| > 0 && !IsWhite(s[0]) && s[0] != '-' && s[0] != '+'
    requires !IsRadixDigit(s[0], 10)
    ensures ParseInt(s) == None
  {
    assert TrimStart(s) == s;
  }
}
