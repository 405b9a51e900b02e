/**
 * Decimal text as the shell produces and consumes it: `sprintf` with `%d` / `%jd`
 * (the `$$` and `$?` expansions) and `strtol(s, NULL, 10)` (the `exit` argument),
 * the latter as section 7.22.1.4 of ISO C11 describes it for a 64-bit `long`.
 */
module Numerals {

  const LongMin: int := -0x8000_0000_0000_0000
  const LongMax: int := 0x7FFF_FFFF_FFFF_FFFF

  predicate IsDigit(c: char) { '0' <= c <= '9' }

  predicate AllDigits(s: string) { forall i :: 0 <= i < |s| ==> IsDigit(s[i]) }

  /** `isspace` in the "C" locale. */
  predicate IsSpace(c: char) { c == ' ' || c == '\t' || c == '\n' || c == '\U{B}' || c == '\U{C}' || c == '\r' }

  function DigitChar(d: nat): (c: char)
    requires d < 10
    ensures IsDigit(c)
  {
    (48 + d) as char
  }

  function DigitValue(c: char): (d: nat)
    requires IsDigit(c)
    ensures d < 10 && DigitChar(d) == c
  {
    c as int - 48
  }

  /** The digits of `n` without leading zeros ("0" for zero). */
  function NatToDecimal(n: nat): (s: string)
    ensures |s| >= 1 && AllDigits(s)
    ensures |s| > 1 ==> s[0] != '0'
    decreases n
  {
    if n < 10 then [DigitChar(n)] else NatToDecimal(n / 10) + [DigitChar(n % 10)]
  }

  /** `sprintf(buf, "%d", n)`: a minus sign for negative values, then the digits of the magnitude. */
  function IntToDecimal(n: int): (s: string)
    ensures |s| >= 1
    ensures s[0] == '-' <==> n < 0
    ensures AllDigits(if n < 0 then s[1..] else s)
  {
    if n < 0 then "-" + NatToDecimal(-n) else NatToDecimal(n)
  }

  /** The value of a run of decimal digits, most significant first. */
  function DigitsValue(s: string): nat
    requires AllDigits(s)
  {
    if s == [] then 0 else 10 * DigitsValue(s[..|s| - 1]) + DigitValue(s[|s| - 1])
  }

  lemma {:induction false} NatToDecimalRoundTrip(n: nat)
    ensures DigitsValue(NatToDecimal(n)) == n
    decreases n
  {
    var s := NatToDecimal(n);
    if n >= 10 {
      NatToDecimalRoundTrip(n / 10);
      assert s[..|s| - 1] == NatToDecimal(n / 10);
    }
  }

  /** Index of the first character at or after `i` that is not `isspace`. */
  function SkipSpaces(s: string, i: nat): (j: nat)
    requires i <= |s|
    ensures i <= j <= |s|
    ensures forall k :: i <= k < j ==> IsSpace(s[k])
    ensures j < |s| ==> !IsSpace(s[j])
    decreases |s| - i
  {
    if i < |s| && IsSpace(s[i]) then SkipSpaces(s, i + 1) else i
  }

  /** Index just past the run of digits that starts at `i`. */
  function DigitRunEnd(s: string, i: nat): (j: nat)
    requires i <= |s|
    ensures i <= j <= |s|
    ensures AllDigits(s[i..j])
    ensures j < |s| ==> !IsDigit(s[j])
    decreases |s| - i
  {
    if i < |s| && IsDigit(s[i]) then DigitRunEnd(s, i + 1) else i
  }

  /** What `strtol` returns when the exact value does not fit in a `long` (`ERANGE`). */
  function Clamp(v: int): (r: int)
    ensures LongMin <= r <= LongMax
    ensures LongMin <= v <= LongMax ==> r == v
    ensures v > LongMax ==> r == LongMax
    ensures v < LongMin ==> r == LongMin
  {
    if v > LongMax then LongMax else if v < LongMin then LongMin else v
  }

  /**
   * `strtol(s, NULL, 10)`: leading white space, an optional sign, then the longest run of
   * digits; trailing text is ignored, and 0 is returned when there are no digits at all.
   */
  function Strtol(s: string): (r: int)
    ensures LongMin <= r <= LongMax
    ensures var i := SkipSpaces(s, 0);
      var j := if i < |s| && (s[i] == '-' || s[i] == '+') then i + 1 else i;
      (j == |s| || !IsDigit(s[j])) ==> r == 0
    ensures r < 0 ==> SkipSpaces(s, 0) < |s| && s[SkipSpaces(s, 0)] == '-'
  {
    var i := SkipSpaces(s, 0);
    var negative := i < |s| && s[i] == '-';
    var j := if i < |s| && (s[i] == '-' || s[i] == '+') then i + 1 else i;
    var e := DigitRunEnd(s, j);
    var magnitude: int := if e == j then 0 else DigitsValue(s[j..e]);
    if e == j then 0 else Clamp(if negative then -magnitude else magnitude)
  }

  /** `strtol` of text made of an optional "-", a run of digits `s[j..e]`, then a non-digit. */
  lemma StrtolOfRun(s: string, j: nat, e: nat)
    requires j <= 1 && j < e <= |s| && AllDigits(s[j..e]) && (e == |s| || !IsDigit(s[e]))
    requires j == 1 <==> s[0] == '-'
    ensures var m: int := DigitsValue(s[j..e]); Strtol(s) == Clamp(if j == 1 then -m else m)
  {
    assert IsDigit(s[j..e][0]);
    assert SkipSpaces(s, 0) == 0;
    DigitRunStops(s, j, e);
  }

  /** Converting the text `sprintf` prints gives back the value, clamped to the range of `long`. */
  lemma StrtolOfDecimal(n: int)
    ensures Strtol(IntToDecimal(n)) == Clamp(n)
  {
    StrtolIgnoresTrailingText(n, []);
    assert IntToDecimal(n) + [] == IntToDecimal(n);
  }

  /** Text after the number is ignored: `strtol` of `3abc` is 3. */
  lemma StrtolIgnoresTrailingText(n: int, rest: string)
    requires rest == [] || !IsDigit(rest[0])
    ensures Strtol(IntToDecimal(n) + rest) == Clamp(n)
  {
    var s := IntToDecimal(n) + rest;
    var j := if n < 0 then 1 else 0;
    var m: nat := if n < 0 then -n else n;
    DecimalRun(n, rest);
    StrtolOfRun(s, j, |IntToDecimal(n)|);
    NatToDecimalRoundTrip(m);
  }

  /** Where the digits of `sprintf`'s output lie once other text follows it. */
  lemma DecimalRun(n: int, rest: string)
    requires rest == [] || !IsDigit(rest[0])
    ensures var d := IntToDecimal(n); var s := d + rest; var j := if n < 0 then 1 else 0;
      j < |d| && AllDigits(s[j..|d|]) && (|d| == |s| || !IsDigit(s[|d|])) && (j == 1 <==> s[0] == '-') &&
      s[j..|d|] == NatToDecimal(if n < 0 then -n else n)
  {
    var d := IntToDecimal(n);
    var s := d + rest;
    var j := if n < 0 then 1 else 0;
    assert d[j..] == NatToDecimal(if n < 0 then -n else n);
    assert s[j..|d|] == d[j..];
    assert s[0] == d[0];
    assert |d| < |s| ==> s[|d|] == rest[0];
  }

  lemma {:induction false} DigitRunStops(s: string, i: nat, e: nat)
    requires i <= e <= |s| && AllDigits(s[i..e]) && (e == |s| || !IsDigit(s[e]))
    ensures DigitRunEnd(s, i) == e
    decreases e - i
  {
    if i < e {
      assert IsDigit(s[i..e][0]);
      assert s[i + 1..e] == s[i..e][1..];
      DigitRunStops(s, i + 1, e);
    }
  }
}
