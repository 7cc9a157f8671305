/**
 * JavaScript's `parseInt(s)` (no radix argument) and the decimal rendering of an
 * integer that `String(n)`, `n.toString()` and template literals produce.
 */
module JsNumber {
  import opened Wrappers
  import opened JsText

  predicate IsDecDigit(c: char) {
    '0' <= c <= '9'
  }

  predicate IsHexLetter(c: char) {
    ('a' <= c <= 'f') || ('A' <= c <= 'F')
  }

  /** A digit of the given radix; `parseInt` without a radix uses 10, or 16 after a `0x` prefix. */
  predicate IsDigitIn(c: char, radix: nat) {
    IsDecDigit(c) || (radix == 16 && IsHexLetter(c))
  }

  function DigitValue(c: char): (v: nat)
    requires IsDecDigit(c) || IsHexLetter(c)
    ensures v < 16
    ensures IsDecDigit(c) ==> v < 10
  {
    if IsDecDigit(c) then c as int - '0' as int
    else if 'a' <= c <= 'f' then c as int - 'a' as int + 10
    else c as int - 'A' as int + 10
  }

  /** The longest prefix of `s` made of digits of `radix`. */
  function DigitRun(s: string, radix: nat): (d: string)
    ensures |d| <= |s| && d == s[..|d|]
    ensures forall i :: 0 <= i < |d| ==> IsDigitIn(d[i], radix)
    ensures |d| == |s| || !IsDigitIn(s[|d|], radix)
    decreases |s|
  {
    if s != [] && IsDigitIn(s[0], radix) then [s[0]] + DigitRun(s[1..], radix) else []
  }

  /** The value of a digit string, most significant digit first. */
  function Value(d: string, radix: nat): nat
    requires forall i :: 0 <= i < |d| ==> IsDecDigit(d[i]) || IsHexLetter(d[i])
    decreases |d|
  {
    if d == [] then 0 else Value(d[..|d| - 1], radix) * radix + DigitValue(d[|d| - 1])
  }

  /** The digits after the sign: radix 16 after `0x` or `0X`, radix 10 otherwise; `None` when no digit follows. */
  function ParseUnsigned(u: string): (r: Option<nat>)
    ensures r.Some? ==> u != [] && IsDecDigit(u[0])
  {
    var hex := |u| >= 2 && u[0] == '0' && (u[1] == 'x' || u[1] == 'X');
    var radix := if hex then 16 else 10;
    var d := DigitRun(if hex then u[2..] else u, radix);
    if d == [] then None else Some(Value(d, radix))
  }

  /** An optional `-` or `+` sign, then the digits. */
  function ParseSigned(t: string): Option<int> {
    if t != [] && t[0] == '-' then
      match ParseUnsigned(t[1..])
      case None => None
      case Some(v) => var w: int := v; Some(-w)
    else if t != [] && t[0] == '+' then
      match ParseUnsigned(t[1..])
      case None => None
      case Some(v) => Some(v)
    else
      match ParseUnsigned(t)
      case None => None
      case Some(v) => Some(v)
  }

  /**
   * `parseInt(s)`: skip leading white space, take an optional sign, switch to radix 16
   * after `0x` or `0X`, then read the longest run of digits; `None` stands for `NaN`,
   * which comes out when that run is empty.
   */
  function ParseInt(s: string): (r: Option<int>)
    ensures AllSpace(s) ==> r.None?
    ensures r.Some? ==> var t := TrimStart(s);
      t != [] && (IsDecDigit(t[0]) || ((t[0] == '-' || t[0] == '+') && |t| >= 2 && IsDecDigit(t[1])))
  {
    TrimStartEmpty(s);
    ParseSigned(TrimStart(s))
  }

  function DecChar(v: nat): (c: char)
    requires v < 10
    ensures IsDecDigit(c) && DigitValue(c) == v
  {
    ('0' as int + v) as char
  }

  /** The decimal digits of `n`, without leading zeros. */
  function NatToString(n: nat): (s: string)
    ensures |s| >= 1
    ensures forall i :: 0 <= i < |s| ==> IsDecDigit(s[i])
    ensures s[0] == '0' ==> n == 0
    decreases n
  {
    if n < 10 then [DecChar(n)] else NatToString(n / 10) + [DecChar(n % 10)]
  }

  /** `String(n)` for an integer `n`. */
  function IntToString(n: int): (s: string)
    ensures |s| >= 1
  {
    if n < 0 then "-" + NatToString(-n) else NatToString(n)
  }

  lemma {:induction false} ValueOfNatToString(n: nat)
    ensures Value(NatToString(n), 10) == n
    decreases n
  {
    if n >= 10 {
      var s := NatToString(n);
      assert s[..|s| - 1] == NatToString(n / 10);
      ValueOfNatToString(n / 10);
    }
  }

  /** The digit run of a digit string followed by a non-digit is that digit string. */
  lemma {:induction false} DigitRunOf(d: string, rest: string, radix: nat)
    requires forall i :: 0 <= i < |d| ==> IsDigitIn(d[i], radix)
    requires rest == [] || !IsDigitIn(rest[0], radix)
    ensures DigitRun(d + rest, radix) == d
    decreases |d|
  {
    if d != [] {
      assert (d + rest)[1..] == d[1..] + rest;
      DigitRunOf(d[1..], rest, radix);
    } else {
      assert d + rest == rest;
    }
  }

  /**
   * `parseInt` reads back the decimal rendering of any integer and stops at the first
   * character that cannot continue it, so `parseInt("80abc")` is 80.
   */
  lemma ParseIntOfRendering(n: int, rest: string)
    requires rest == [] || !IsDecDigit(rest[0])
    requires n == 0 ==> rest == [] || (rest[0] != 'x' && rest[0] != 'X')
    ensures ParseInt(IntToString(n) + rest) == Some(n)
  {
    if n < 0 {
      ParseUnsignedOfDigits(-n, rest);
      NegativeRendering(n, rest);
    } else {
      ParseUnsignedOfDigits(n, rest);
      NonNegativeRendering(n, rest);
    }
  }

  lemma NegativeRendering(n: int, rest: string)
    requires n < 0 && ParseUnsigned(NatToString(-n) + rest) == Some(-n)
    ensures ParseInt(IntToString(n) + rest) == Some(n)
  {
    var m: nat := -n;
    var u := NatToString(m) + rest;
    var t := IntToString(n) + rest;
    NegativeConcat(n, rest);
    UnpaddedParse(t);
    NegatedParse(u, m);
  }

  lemma NegativeConcat(n: int, rest: string)
    requires n < 0
    ensures IntToString(n) + rest == "-" + (NatToString(-n) + rest)
    ensures (IntToString(n) + rest)[0] == '-'
  {
  }

  lemma NonNegativeRendering(m: nat, rest: string)
    requires ParseUnsigned(NatToString(m) + rest) == Some(m)
    ensures ParseInt(IntToString(m) + rest) == Some(m)
  {
    var d := NatToString(m);
    var s := d + rest;
    assert IntToString(m) == d;
    assert s[0] == d[0] && IsDecDigit(s[0]);
    UnpaddedParse(s);
    UnsignedParse(s);
  }

  /** Text that starts with a digit has no sign to read. */
  lemma UnsignedParse(s: string)
    requires s != [] && IsDecDigit(s[0])
    ensures ParseSigned(s) == ParseUnsigned(s)
  {
  }

  /** Text that starts with a digit or a sign is parsed as it stands. */
  lemma UnpaddedParse(s: string)
    requires s != [] && (IsDecDigit(s[0]) || s[0] == '-')
    ensures ParseInt(s) == ParseSigned(s)
  {
    assert !IsSpace(s[0]);
    assert TrimStart(s) == s;
  }

  lemma NegatedParse(u: string, m: nat)
    requires ParseUnsigned(u) == Some(m)
    ensures ParseSigned("-" + u) == Some(-(m as int))
  {
    assert ("-" + u)[1..] == u;
  }

  lemma ParseUnsignedOfDigits(m: nat, rest: string)
    requires rest == [] || !IsDecDigit(rest[0])
    requires m == 0 ==> rest == [] || (rest[0] != 'x' && rest[0] != 'X')
    ensures ParseUnsigned(NatToString(m) + rest) == Some(m)
  {
    var digits := NatToString(m);
    var u := digits + rest;
    DigitRunOf(digits, rest, 10);
    ValueOfNatToString(m);
    if |u| >= 2 && u[0] == '0' {
      assert m == 0 && u[1] == rest[0];
    }
  }

  /** Parsing the rendering of an integer gives the integer back. */
  lemma ParseIntRoundTrip(n: int)
    ensures ParseInt(IntToString(n)) == Some(n)
  {
    ParseIntOfRendering(n, "");
    assert IntToString(n) + "" == IntToString(n);
  }

  /** Distinct integers render as distinct strings. */
  lemma IntToStringInjective(m: int, n: int)
    requires IntToString(m) == IntToString(n)
    ensures m == n
  {
    ParseIntRoundTrip(m);
    ParseIntRoundTrip(n);
  }

  /** Leading white space does not change what `parseInt` reads. */
  lemma ParseIntSkipsSpace(ws: string, s: string)
    requires AllSpace(ws)
    ensures ParseInt(ws + s) == ParseInt(s)
  {
    TrimStartAfterSpace(ws, s);
  }

  lemma {:induction false} TrimStartAfterSpace(ws: string, s: string)
    requires AllSpace(ws)
    ensures TrimStart(ws + s) == TrimStart(s)
    decreases |ws|
  {
    if ws != [] {
      assert (ws + s)[1..] == ws[1..] + s;
      TrimStartAfterSpace(ws[1..], s);
    } else {
      assert ws + s == s;
    }
  }
}
