/**
  `String(n)` for a safe integer (`|n| <= 2^53`): optional minus sign, then
  decimal digits with no leading zero. `ParseDecimal` is the reader it must
  agree with.
 */
module Decimal {
  import opened Wrappers

  predicate IsDigit(c: char) {
    '0' <= c <= '9'
  }

  predicate AllDigits(s: string) {
    forall i :: 0 <= i < |s| ==> IsDigit(s[i])
  }

  function DigitChar(d: nat): (c: char)
    requires d < 10
    ensures IsDigit(c) && c as int - '0' as int == d
  {
    ('0' as int + d) as char
  }

  /** The number a string of decimal digits denotes (most significant first). */
  function DigitsValue(s: string): nat
    requires AllDigits(s)
    decreases |s|
  {
    if |s| == 0 then 0
    else 10 * DigitsValue(s[..|s| - 1]) + (s[|s| - 1] as int - '0' as int)
  }

  /** Reads an optional `-` followed by at least one decimal digit. */
  function ParseDecimal(s: string): Option<int> {
    if 0 < |s| && s[0] == '-' then
      if 1 < |s| && AllDigits(s[1..]) then Some(0 - DigitsValue(s[1..]) as int) else None
    else if 0 < |s| && AllDigits(s) then Some(DigitsValue(s))
    else None
  }

  /** The canonical digits of `n`: never empty, no leading zero. */
  function NatToDecimal(n: nat): (r: string)
    ensures 1 <= |r| && AllDigits(r)
    ensures DigitsValue(r) == n
    ensures n == 0 <==> r == "0"
    ensures 1 < |r| ==> r[0] != '0'
    decreases n
  {
    if n < 10 then [DigitChar(n)]
    else
      var prefix := NatToDecimal(n / 10);
      var r := prefix + [DigitChar(n % 10)];
      assert r[..|r| - 1] == prefix;
      r
  }

  /** Digits as `String()` writes them: at least one, and no leading zero unless the only digit. */
  predicate CanonicalDigits(d: string) {
    1 <= |d| && AllDigits(d) && (1 < |d| ==> d[0] != '0')
  }

  /** Text as `String()` writes an integer: canonical digits, after a minus sign only for a nonzero value. */
  predicate CanonicalDecimal(s: string) {
    if 0 < |s| && s[0] == '-' then CanonicalDigits(s[1..]) && s[1..] != "0"
    else CanonicalDigits(s)
  }

  /** `String(i)` for a safe integer: a minus sign for negatives, then its digits. */
  function IntToDecimal(i: int): (r: string)
    ensures ParseDecimal(r) == Some(i)
    ensures CanonicalDecimal(r)
    ensures 0 < |r| && (i < 0 <==> r[0] == '-')
  {
    if i < 0 then
      var r := "-" + NatToDecimal(-i);
      assert r[1..] == NatToDecimal(-i);
      r
    else NatToDecimal(i)
  }

  /** Digits denoting zero begin with `0`. */
  lemma {:induction false} ZeroValueLeadingZero(s: string)
    requires AllDigits(s) && 0 < |s|
    requires DigitsValue(s) == 0
    ensures s[0] == '0'
    decreases |s|
  {
    var prefix := s[..|s| - 1];
    if 0 < |prefix| {
      ZeroValueLeadingZero(prefix);
      assert prefix[0] == s[0];
    }
  }

  /** Canonical digits are the only canonical spelling of their value. */
  lemma {:induction false} CanonicalDigitsUnique(d: string)
    requires CanonicalDigits(d)
    ensures d == NatToDecimal(DigitsValue(d))
    decreases |d|
  {
    var n := DigitsValue(d);
    var last := d[|d| - 1] as int - '0' as int;
    if |d| == 1 {
      assert d[..|d| - 1] == [];
      assert DigitsValue(d[..|d| - 1]) == 0;
      assert n == 10 * DigitsValue(d[..|d| - 1]) + last;
      assert [DigitChar(n)] == d;
    } else {
      var prefix := d[..|d| - 1];
      assert prefix[0] == d[0];
      CanonicalDigitsUnique(prefix);
      if DigitsValue(prefix) == 0 {
        ZeroValueLeadingZero(prefix);
      }
      assert n / 10 == DigitsValue(prefix) && n % 10 == last;
      assert DigitChar(n % 10) == d[|d| - 1];
      assert d == prefix + [d[|d| - 1]];
    }
  }

  /** `IntToDecimal(i)` is the only canonical text that reads back as `i`. */
  lemma CanonicalUnique(s: string, i: int)
    requires CanonicalDecimal(s)
    requires ParseDecimal(s) == Some(i)
    ensures s == IntToDecimal(i)
  {
    if s[0] == '-' {
      var digits := s[1..];
      CanonicalDigitsUnique(digits);
      assert DigitsValue(digits) != 0;
      assert s == "-" + digits;
    } else {
      CanonicalDigitsUnique(s);
    }
  }
}
