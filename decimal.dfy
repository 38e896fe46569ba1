/**
 * Decimal text of integers, as PHP writes and reads it: the string form of
 * an `int` (used for the `<id>|<secret>` token text and for the `Uu` date
 * format) and the `(int)` cast of a numeric string.
 */
module Decimal {
  import opened Wrappers

  predicate IsDigit(c: char) {
    '0' <= c <= '9'
  }

  predicate AllDigits(s: string) {
    forall i :: 0 <= i < |s| ==> IsDigit(s[i])
  }

  function DigitValue(c: char): (d: nat)
    requires IsDigit(c)
    ensures d < 10
  {
    c as int - '0' as int
  }

  function DigitChar(d: nat): (c: char)
    requires d < 10
    ensures IsDigit(c) && DigitValue(c) == d
  {
    ('0' as int + d) as char
  }

  function Pow10(n: nat): (p: nat)
    ensures p >= 1
  {
    if n == 0 then 1 else 10 * Pow10(n - 1)
  }

  /** The number a string of decimal digits denotes, most significant digit first. */
  function DigitsValue(s: string): nat
    requires AllDigits(s)
  {
    if s == [] then 0 else DigitsValue(s[..|s| - 1]) * 10 + DigitValue(s[|s| - 1])
  }

  /** PHP's string conversion of a non-negative int: no sign, no leading zeros. */
  function FormatNat(n: nat): (s: string)
    ensures |s| > 0 && AllDigits(s)
    ensures DigitsValue(s) == n
    ensures |s| > 1 ==> s[0] != '0'
  {
    if n < 10 then [DigitChar(n)]
    else
      var prefix := FormatNat(n / 10);
      var s := prefix + [DigitChar(n % 10)];
      assert s[..|s| - 1] == prefix;
      s
  }

  /** PHP's string conversion of any int: a minus sign in front of negative numbers. */
  function FormatInt(i: int): (s: string)
    ensures |s| > 0
    ensures i >= 0 <==> AllDigits(s)
    ensures i < 0 ==> s[0] == '-' && AllDigits(s[1..]) && DigitsValue(s[1..]) == -i
    ensures i >= 0 ==> DigitsValue(s) == i
  {
    if i < 0 then
      var s := "-" + FormatNat(-i);
      assert s[1..] == FormatNat(-i);
      assert !IsDigit(s[0]);
      s
    else FormatNat(i)
  }

  /** The non-negative number a string denotes when it is all decimal digits; None otherwise. */
  function ParseNat(s: string): (r: Option<nat>)
    ensures r.Some? <==> |s| > 0 && AllDigits(s)
    ensures r.Some? ==> r.value == DigitsValue(s)
  {
    if |s| > 0 && AllDigits(s) then Some(DigitsValue(s)) else None
  }

  /** `sprintf('%0<width>d', n)`: the decimal digits of n, padded with zeros on the left. */
  function ZeroPad(n: nat, width: nat): (s: string)
    ensures AllDigits(s) && DigitsValue(s) == n
    ensures 0 < width && n < Pow10(width) ==> |s| == width
  {
    var digits := FormatNat(n);
    if |digits| >= width then
      if width > 0 then FormatNatLength(n, width); digits else digits
    else
      var zeros := seq(width - |digits|, _ => '0');
      DigitsValueZeros(zeros);
      DigitsValueConcat(zeros, digits);
      zeros + digits
  }

  /** How many decimal digits the string starts with. */
  function LeadingDigits(s: string): (n: nat)
    ensures n <= |s| && AllDigits(s[..n])
    ensures n < |s| ==> !IsDigit(s[n])
  {
    if s == [] || !IsDigit(s[0]) then 0
    else
      var m := LeadingDigits(s[1..]);
      assert s[..1 + m] == [s[0]] + s[1..][..m];
      1 + m
  }

  /**
   * PHP's `(int)` cast of a string: an optional minus sign followed by the
   * longest run of decimal digits; no digits at all give 0.
   */
  function IntCast(s: string): int {
    if |s| > 0 && s[0] == '-' then
      var rest := s[1..];
      -(DigitsValue(rest[..LeadingDigits(rest)]) as int)
    else
      DigitsValue(s[..LeadingDigits(s)])
  }

  lemma {:induction false} AllDigitsConcat(a: string, b: string)
    requires AllDigits(a) && AllDigits(b)
    ensures AllDigits(a + b)
  {
    forall i | 0 <= i < |a + b| ensures IsDigit((a + b)[i]) {
      if i < |a| { assert (a + b)[i] == a[i]; } else { assert (a + b)[i] == b[i - |a|]; }
    }
  }

  lemma {:induction false} DigitsValueConcat(a: string, b: string)
    requires AllDigits(a) && AllDigits(b)
    ensures AllDigits(a + b)
    ensures DigitsValue(a + b) == DigitsValue(a) * Pow10(|b|) + DigitsValue(b)
  {
    AllDigitsConcat(a, b);
    if b == [] {
      assert a + b == a;
    } else {
      var b' := b[..|b| - 1];
      assert (a + b)[..|a + b| - 1] == a + b';
      assert (a + b)[|a + b| - 1] == b[|b| - 1];
      DigitsValueConcat(a, b');
      ShiftDigit(DigitsValue(a), Pow10(|b'|), DigitsValue(b'), DigitValue(b[|b| - 1]));
    }
  }

  lemma {:induction false} ShiftDigit(x: int, p: int, y: int, d: int)
    ensures (x * p + y) * 10 + d == x * (10 * p) + (y * 10 + d)
  {
  }

  lemma {:induction false} DigitsValueZeros(z: string)
    requires forall i :: 0 <= i < |z| ==> z[i] == '0'
    ensures AllDigits(z) && DigitsValue(z) == 0
  {
    if z != [] {
      DigitsValueZeros(z[..|z| - 1]);
    }
  }

  /** A number below 10^k has at most k digits (k at least one: zero is written "0"). */
  lemma {:induction false} FormatNatLength(n: nat, k: nat)
    requires k > 0
    ensures n < Pow10(k) ==> |FormatNat(n)| <= k
  {
    if n >= 10 && n < Pow10(k) {
      assert k > 1;
      assert n / 10 < Pow10(k - 1);
      FormatNatLength(n / 10, k - 1);
    }
  }

  /** A string whose first digit is not zero denotes a positive number. */
  lemma {:induction false} LeadingNonZeroPositive(s: string)
    requires |s| > 0 && AllDigits(s) && s[0] != '0'
    ensures DigitsValue(s) > 0
  {
    if |s| > 1 {
      LeadingNonZeroPositive(s[..|s| - 1]);
    }
  }

  /** Every digit string without a superfluous leading zero is the text of its own value. */
  lemma {:induction false} FormatDigitsValue(s: string)
    requires |s| > 0 && AllDigits(s) && (|s| > 1 ==> s[0] != '0')
    ensures FormatNat(DigitsValue(s)) == s
  {
    var p := s[..|s| - 1];
    var c := s[|s| - 1];
    if |s| == 1 {
      assert DigitChar(DigitValue(c)) == c;
      assert s == [c];
    } else {
      LeadingNonZeroPositive(p);
      FormatDigitsValue(p);
      assert DigitChar(DigitValue(c)) == c;
      assert s == p + [c];
    }
  }

  /** The cast reads back a string that is all digits, or a minus sign followed by digits. */
  lemma {:induction false} IntCastOfDigits(s: string)
    requires AllDigits(s)
    ensures IntCast(s) == DigitsValue(s)
    ensures IntCast("-" + s) == -(DigitsValue(s) as int)
  {
    LeadingDigitsOfDigits(s);
    assert s[..|s|] == s;
    assert ("-" + s)[1..] == s;
  }

  lemma {:induction false} LeadingDigitsOfDigits(s: string)
    requires AllDigits(s)
    ensures LeadingDigits(s) == |s|
  {
    if s != [] {
      LeadingDigitsOfDigits(s[1..]);
    }
  }
}
