/** The part of C's strtol (base 10) the shell relies on: optional leading
    white space, an optional sign, then the longest run of decimal digits.
    Out-of-range values clamp to LONG_MIN/LONG_MAX; when no digit follows,
    nothing is consumed and the value is 0. */
module Num {
  import opened Base

  /** The value of strtol and how many characters it consumed (the `end`
      pointer minus the start). */
  datatype Conversion = Conversion(value: int, consumed: nat)

  /** Number of leading characters of s from i on that satisfy isspace. */
  function SpaceRun(s: string, i: nat): (n: nat)
    requires i <= |s|
    ensures i + n <= |s|
    ensures forall k :: i <= k < i + n ==> IsSpace(s[k])
    ensures i + n < |s| ==> !IsSpace(s[i + n])
    decreases |s| - i
  {
    if i < |s| && IsSpace(s[i]) then 1 + SpaceRun(s, i + 1) else 0
  }

  /** Number of decimal digits of s from i on. */
  function DigitRun(s: string, i: nat): (n: nat)
    requires i <= |s|
    ensures i + n <= |s|
    ensures forall k :: i <= k < i + n ==> IsDigit(s[k])
    ensures i + n < |s| ==> !IsDigit(s[i + n])
    decreases |s| - i
  {
    if i < |s| && IsDigit(s[i]) then 1 + DigitRun(s, i + 1) else 0
  }

  function DigitValue(c: char): nat
    requires IsDigit(c)
  {
    (c as int) - ('0' as int)
  }

  /** The value of a string of decimal digits. */
  function DigitsValue(d: string): nat
    requires forall k :: 0 <= k < |d| ==> IsDigit(d[k])
    decreases |d|
  {
    if |d| == 0 then 0 else DigitsValue(d[..|d| - 1]) * 10 + DigitValue(d[|d| - 1])
  }

  function Clamp(v: int): int {
    if v > LongMax then LongMax else if v < LongMin then LongMin else v
  }

  /** strtol(s, &end, 10). */
  function StrToL(s: string): (r: Conversion)
    ensures r.consumed <= |s|
    ensures LongMin <= r.value <= LongMax
    // Either nothing is consumed (and the value is 0), or the conversion
    // stops right after a digit, at a character that is not a digit.
    ensures r.consumed == 0 ==> r.value == 0
    ensures r.consumed > 0 ==> IsDigit(s[r.consumed - 1])
    ensures 0 < r.consumed < |s| ==> !IsDigit(s[r.consumed])
  {
    var w := SpaceRun(s, 0);
    var sign := if w < |s| && (s[w] == '+' || s[w] == '-') then 1 else 0;
    var d := DigitRun(s, w + sign);
    if d == 0 then Conversion(0, 0)
    else
      var magnitude: int := DigitsValue(s[w + sign..w + sign + d]);
      var v: int := if sign == 1 && s[w] == '-' then -magnitude else magnitude;
      Conversion(Clamp(v), w + sign + d)
  }

  /** The value lies in [0, INT_MAX], the check both call sites apply. */
  predicate InFdRange(v: int) {
    0 <= v <= IntMax
  }

  function DigitChar(n: nat): char
    requires n < 10
  {
    (('0' as int) + n) as char
  }

  /** The decimal rendering of a natural number, without leading zeros. */
  function Decimal(n: nat): string
    decreases n
  {
    if n < 10 then [DigitChar(n)] else Decimal(n / 10) + [DigitChar(n % 10)]
  }

  lemma {:induction false} DecimalDigits(n: nat)
    ensures |Decimal(n)| > 0
    ensures forall k :: 0 <= k < |Decimal(n)| ==> IsDigit(Decimal(n)[k])
    ensures DigitsValue(Decimal(n)) == n
    decreases n
  {
    if n >= 10 {
      DecimalDigits(n / 10);
      var d := Decimal(n);
      assert d[..|d| - 1] == Decimal(n / 10);
    }
  }

  /** strtol reads back exactly what Decimal wrote, stopping at the first
      character after it that is not a digit. */
  lemma StrToLDecimal(n: nat, rest: string)
    requires n <= LongMax
    requires |rest| > 0 ==> !IsDigit(rest[0])
    ensures StrToL(Decimal(n) + rest) == Conversion(n, |Decimal(n)|)
  {
    var s := Decimal(n) + rest;
    DecimalDigits(n);
    assert !IsSpace(s[0]);
    assert SpaceRun(s, 0) == 0;
    var d := DigitRun(s, 0);
    assert forall k :: 0 <= k < |Decimal(n)| ==> IsDigit(s[k]);
    if |rest| > 0 {
      assert s[|Decimal(n)|] == rest[0];
    }
    assert d == |Decimal(n)|;
    assert s[0..d] == Decimal(n);
  }

  /** A sign is accepted: "-0" and "+2" read as 0 and 2. */
  lemma StrToLSigned(n: nat, sign: char)
    requires n <= LongMax && (sign == '+' || sign == '-')
    ensures StrToL([sign] + Decimal(n)) == Conversion(if sign == '-' then -(n as int) else n, 1 + |Decimal(n)|)
  {
    var s := [sign] + Decimal(n);
    DecimalDigits(n);
    assert SpaceRun(s, 0) == 0;
    var d := DigitRun(s, 1);
    assert forall k :: 1 <= k < |s| ==> s[k] == Decimal(n)[k - 1];
    assert d == |Decimal(n)|;
    assert s[1..1 + d] == Decimal(n);
  }
}
