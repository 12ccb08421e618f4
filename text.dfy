/**
 * String helpers that stand for the JavaScript built-ins the form relies on:
 * `String.prototype.startsWith`, `String.prototype.substr` and the decimal
 * rendering of a non-negative integer (`"" + n`).
 */
module Text {

  /** `s.startsWith(prefix)`: case-sensitive, character by character. */
  predicate StartsWith(s: string, prefix: string)
  {
    |prefix| <= |s| && s[..|prefix|] == prefix
  }

  predicate IsDigit(c: char)
  {
    '0' <= c <= '9'
  }

  predicate AllDigits(s: string)
  {
    forall i :: 0 <= i < |s| ==> IsDigit(s[i])
  }

  function DigitChar(d: nat): (c: char)
    requires d < 10
    ensures IsDigit(c)
  {
    (('0' as int) + d) as char
  }

  function DigitValue(c: char): (d: nat)
    requires IsDigit(c)
    ensures d < 10 && DigitChar(d) == c
  {
    (c as int) - ('0' as int)
  }

  /**
   * The decimal rendering of `n`, as `"" + n` gives it for a safe integer: no
   * leading zeros, so only zero itself starts with `0`.
   */
  function Decimal(n: nat): (r: string)
    ensures r != [] && AllDigits(r)
    ensures r[0] == '0' <==> n == 0
  {
    if n < 10 then [DigitChar(n)] else Decimal(n / 10) + [DigitChar(n % 10)]
  }

  /** The number a non-empty string of decimal digits denotes. */
  function DigitsValue(s: string): nat
    requires AllDigits(s)
  {
    if s == [] then 0 else 10 * DigitsValue(s[..|s| - 1]) + DigitValue(s[|s| - 1])
  }

  /** Reading back the decimal rendering gives the number again. */
  lemma {:induction false} DecimalRoundTrip(n: nat)
    ensures DigitsValue(Decimal(n)) == n
  {
    var s := Decimal(n);
    if n < 10 {
      assert s[..|s| - 1] == [];
    } else {
      DecimalRoundTrip(n / 10);
      assert s[..|s| - 1] == Decimal(n / 10);
    }
  }

  /** The longest prefix of `s` made of decimal digits. */
  function DigitPrefix(s: string): (r: string)
    ensures AllDigits(r) && |r| <= |s| && s[..|r|] == r
    ensures |r| < |s| ==> !IsDigit(s[|r|])
  {
    if s != [] && IsDigit(s[0]) then [s[0]] + DigitPrefix(s[1..]) else []
  }

  /** A run of digits followed by a non-digit (or nothing) is exactly what `DigitPrefix` takes. */
  lemma {:induction false} DigitPrefixOfDigitsThenOther(d: string, rest: string)
    requires AllDigits(d)
    requires rest == [] || !IsDigit(rest[0])
    ensures DigitPrefix(d + rest) == d
  {
    if d == [] {
      assert d + rest == rest;
    } else {
      assert (d + rest)[1..] == d[1..] + rest;
      DigitPrefixOfDigitsThenOther(d[1..], rest);
    }
  }

  /**
   * `s.substr(start, length)` for non-negative arguments: the characters from
   * `start` on, at most `length` of them, and the empty string when `start`
   * is past the end.
   */
  function Substr(s: string, start: nat, length: nat): (r: string)
    ensures |r| <= length
    ensures start >= |s| ==> r == []
    ensures start < |s| ==> |r| == (if |s| - start < length then |s| - start else length)
    ensures forall i :: 0 <= i < |r| ==> r[i] == s[start + i]
  {
    if start >= |s| then []
    else if start + length <= |s| then s[start..start + length]
    else s[start..]
  }
}
