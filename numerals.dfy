/** Python's base-10 `int(text)` and `str(n)`, as far as the handler needs
    them: `int()` turns an MQTT payload into the LED brightness, `str()`
    turns a command value into the payload that is published. */
module Numerals {
  import opened Wrappers

  predicate IsDigit(c: char)
  {
    '0' <= c <= '9'
  }

  /** The whitespace `int()` skips around the number: below 128 only tab,
      line feed, vertical tab, form feed, carriage return and space (the
      separators 0x1C..0x1F are not skipped); above 127 every character
      `str.isspace` accepts, which `int()` turns into a space first. */
  predicate IsSpace(c: char)
  {
    var k := c as int;
    (9 <= k <= 13) || k == 32 || k == 0x85 || k == 0xA0 || k == 0x1680
    || (0x2000 <= k <= 0x200A) || k == 0x2028 || k == 0x2029 || k == 0x202F
    || k == 0x205F || k == 0x3000
  }

  /** Drops leading whitespace: what is left starts with no whitespace. */
  function TrimStart(s: string): (r: string)
    ensures |r| <= |s|
    ensures r == [] || !IsSpace(r[0])
    decreases |s|
  {
    if s != [] && IsSpace(s[0]) then TrimStart(s[1..]) else s
  }

  /** Drops trailing whitespace: what is left ends with no whitespace. */
  function TrimEnd(s: string): (r: string)
    ensures |r| <= |s|
    ensures r == [] || !IsSpace(r[|r| - 1])
    decreases |s|
  {
    if s != [] && IsSpace(s[|s| - 1]) then TrimEnd(s[..|s| - 1]) else s
  }

  /** TrimStart keeps a suffix of its input. */
  lemma {:induction false} TrimStartIsSuffix(s: string)
    ensures TrimStart(s) == s[|s| - |TrimStart(s)|..]
    decreases |s|
  {
    if s != [] && IsSpace(s[0]) {
      TrimStartIsSuffix(s[1..]);
      assert s[1..][|s| - 1 - |TrimStart(s)|..] == s[|s| - |TrimStart(s)|..];
    }
  }

  /** TrimEnd keeps a prefix of its input. */
  lemma {:induction false} TrimEndIsPrefix(s: string)
    ensures TrimEnd(s) == s[..|TrimEnd(s)|]
    decreases |s|
  {
    if s != [] && IsSpace(s[|s| - 1]) {
      TrimEndIsPrefix(s[..|s| - 1]);
    }
  }

  /** Everything TrimStart drops is whitespace. */
  lemma {:induction false} TrimStartDropsSpaces(s: string)
    ensures forall i :: 0 <= i < |s| - |TrimStart(s)| ==> IsSpace(s[i])
    decreases |s|
  {
    if s != [] && IsSpace(s[0]) {
      TrimStartDropsSpaces(s[1..]);
      assert TrimStart(s) == TrimStart(s[1..]);
      forall i | 1 <= i < |s| - |TrimStart(s)|
        ensures IsSpace(s[i])
      {
        assert s[i] == s[1..][i - 1];
      }
    }
  }

  /** Everything TrimEnd drops is whitespace. */
  lemma {:induction false} TrimEndDropsSpaces(s: string)
    ensures forall i :: |TrimEnd(s)| <= i < |s| ==> IsSpace(s[i])
    decreases |s|
  {
    if s != [] && IsSpace(s[|s| - 1]) {
      TrimEndDropsSpaces(s[..|s| - 1]);
    }
  }

  /** Python's `s.strip()`. */
  function Strip(s: string): string
  {
    TrimEnd(TrimStart(s))
  }

  predicate AllDigits(s: string)
  {
    forall i :: 0 <= i < |s| ==> IsDigit(s[i])
  }

  function DigitValue(c: char): nat
    requires IsDigit(c)
  {
    c as int - '0' as int
  }

  function DigitChar(d: nat): (c: char)
    requires d < 10
    ensures IsDigit(c) && DigitValue(c) == d
  {
    ('0' as int + d) as char
  }

  /** The number a string of decimal digits denotes, most significant first. */
  function DigitsValue(s: string): nat
    requires AllDigits(s)
    decreases |s|
  {
    if s == [] then 0 else DigitsValue(s[..|s| - 1]) * 10 + DigitValue(s[|s| - 1])
  }

  /** Digits with single underscores between them, the shape `int()`
      accepts after the optional sign: "7", "007", "1_000", not "_1",
      "1_" or "1__0". */
  predicate WellGrouped(s: string)
  {
    && |s| > 0
    && IsDigit(s[0])
    && IsDigit(s[|s| - 1])
    && (forall i :: 0 <= i < |s| ==> IsDigit(s[i]) || s[i] == '_')
    && (forall i :: 0 <= i < |s| - 1 && s[i] == '_' ==> s[i + 1] != '_')
  }

  /** The digits of `s` with the underscores taken out. */
  function Ungroup(s: string): (r: string)
    ensures (forall i :: 0 <= i < |s| ==> IsDigit(s[i]) || s[i] == '_') ==> AllDigits(r)
    decreases |s|
  {
    if s == [] then [] else (if s[0] == '_' then [] else [s[0]]) + Ungroup(s[1..])
  }

  /** The most digits `int()` converts and `str()` produces in base 10
      (Python's default `sys.get_int_max_str_digits()`); beyond it both
      raise ValueError. Underscores do not count as digits. */
  const MaxStrDigits: nat := 4300

  /** `str(n)` stays within the digit limit. */
  predicate WithinDigitLimit(n: int)
  {
    |NatToDecimal(if n < 0 then -n else n)| <= MaxStrDigits
  }

  function ParseUnsigned(t: string): Option<nat>
  {
    if WellGrouped(t) && |Ungroup(t)| <= MaxStrDigits then Some(DigitsValue(Ungroup(t))) else None
  }

  /** Python's `int(s)` in base 10: surrounding whitespace, an optional
      sign, then digits grouped by single underscores; None where Python
      raises ValueError. An empty or all-whitespace payload never parses. */
  function ParseInt(s: string): (r: Option<int>)
    ensures r.Some? ==> |Strip(s)| > 0
  {
    var t := Strip(s);
    if |t| > 0 && (t[0] == '-' || t[0] == '+') then
      match ParseUnsigned(t[1..])
      case None => None
      case Some(m) => Some(if t[0] == '-' then -(m as int) else m)
    else
      match ParseUnsigned(t)
      case None => None
      case Some(m) => Some(m)
  }

  /** What `int()` accepts is, once stripped, non-empty and made of an
      optional leading sign followed by digits and underscores only. */
  lemma ParseIntShape(s: string)
    ensures ParseInt(s).Some? ==> var t := Strip(s);
              && |t| > 0
              && forall i :: 0 <= i < |t| ==> IsDigit(t[i]) || t[i] == '_' || (i == 0 && (t[i] == '+' || t[i] == '-'))
  {
    var t := Strip(s);
    if ParseInt(s).Some? && |t| > 0 && (t[0] == '-' || t[0] == '+') {
      assert forall i :: 1 <= i < |t| ==> t[i] == t[1..][i - 1];
    }
  }

  /** Python's `str(n)` for `n >= 0`: decimal digits, no leading zero. */
  function NatToDecimal(n: nat): (r: string)
    ensures |r| > 0 && AllDigits(r) && DigitsValue(r) == n
    ensures r[0] == '0' ==> r == "0"
    decreases n
  {
    if n < 10 then
      [DigitChar(n)]
    else
      var r := NatToDecimal(n / 10) + [DigitChar(n % 10)];
      assert r[..|r| - 1] == NatToDecimal(n / 10);
      r
  }

  /** Python's `str(n)` for any integer: a minus sign exactly for negative
      `n`, then digits. */
  function IntToDecimal(n: int): (r: string)
    ensures |r| > 0
    ensures r[0] == '-' <==> n < 0
    ensures AllDigits(if n < 0 then r[1..] else r)
  {
    if n < 0 then "-" + NatToDecimal(-n) else NatToDecimal(n)
  }

  lemma {:induction false} UngroupDigits(s: string)
    requires AllDigits(s)
    ensures Ungroup(s) == s
    decreases |s|
  {
    if s != [] {
      UngroupDigits(s[1..]);
    }
  }

  lemma StripUnpadded(s: string)
    requires |s| > 0 && !IsSpace(s[0]) && !IsSpace(s[|s| - 1])
    ensures Strip(s) == s
  {
  }

  /** Plain digits within the limit are well grouped and denote their
      value. */
  lemma DigitsParseUnsigned(d: string)
    requires |d| > 0 && AllDigits(d) && |d| <= MaxStrDigits
    ensures ParseUnsigned(d) == Some(DigitsValue(d))
  {
    UngroupDigits(d);
    assert WellGrouped(d);
  }

  /** Plain digits within the limit parse to their value. */
  lemma DigitsParse(d: string)
    requires |d| > 0 && AllDigits(d) && |d| <= MaxStrDigits
    ensures ParseInt(d) == Some(DigitsValue(d))
  {
    DigitsParseUnsigned(d);
    StripUnpadded(d);
    assert d[0] != '-' && d[0] != '+';
  }

  /** A minus sign in front of a well-grouped number without trailing
      whitespace negates it. */
  lemma MinusParse(d: string, m: nat)
    requires |d| > 0 && !IsSpace(d[|d| - 1]) && ParseUnsigned(d) == Some(m)
    ensures ParseInt("-" + d) == Some(-(m as int))
  {
    var s := "-" + d;
    assert s[1..] == d && s[|s| - 1] == d[|d| - 1];
    StripUnpadded(s);
  }

  /** `int(str(n)) == n`: what Python prints for an integer, it parses
      back, for every integer `str()` accepts. */
  lemma IntToDecimalRoundTrip(n: int)
    requires WithinDigitLimit(n)
    ensures ParseInt(IntToDecimal(n)) == Some(n)
  {
    var d := NatToDecimal(if n < 0 then -n else n);
    if n < 0 {
      DigitsParseUnsigned(d);
      MinusParse(d, -n);
    } else {
      DigitsParse(d);
    }
  }

  /** A payload holding a character that is neither a digit, whitespace, a
      sign nor an underscore never parses (the "abc" brightness payload). */
  lemma ParseIntRejects(s: string, k: int)
    requires 0 <= k < |s|
    requires !IsDigit(s[k]) && !IsSpace(s[k]) && s[k] != '+' && s[k] != '-' && s[k] != '_'
    ensures ParseInt(s) == None
  {
    var u := TrimStart(s);
    var t := Strip(s);
    TrimStartDropsSpaces(s);
    TrimEndDropsSpaces(u);
    TrimStartIsSuffix(s);
    TrimEndIsPrefix(u);
    var j := k - (|s| - |u|);
    assert 0 <= j < |u| && u[j] == s[k];
    assert j < |t| && t[j] == s[k];
    if |t| > 0 && (t[0] == '-' || t[0] == '+') {
      assert t[1..][j - 1] == s[k];
    }
  }

  /** A payload of more than MaxStrDigits digits is refused, however small
      its value (leading zeros count). */
  lemma ParseIntDigitLimit(s: string)
    requires AllDigits(s) && |s| > MaxStrDigits
    ensures ParseInt(s) == None
  {
    StripUnpadded(s);
    UngroupDigits(s);
  }
}
