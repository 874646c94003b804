/** Decimal digit strings: the zero-padded fields of a date and the decimal
    form JavaScript gives an integer id when it converts it to a string. */
module Decimal {

  import opened Wrappers

  predicate IsDigit(c: char) {
    '0' <= c <= '9'
  }

  predicate AllDigits(s: string) {
    forall i :: 0 <= i < |s| ==> IsDigit(s[i])
  }

  function DigitValue(c: char): nat
    requires IsDigit(c)
  {
    c as int - '0' as int
  }

  function DigitChar(d: nat): (c: char)
    requires d < 10
    ensures IsDigit(c) && DigitValue(c) == d
  {
    ('0' as int + d) as char
  }

  function Pow10(n: nat): (p: nat)
    ensures p >= 1
  {
    if n == 0 then 1 else 10 * Pow10(n - 1)
  }

  /** The number a string of decimal digits denotes, most significant digit first. */
  function Val(s: string): (v: nat)
    requires AllDigits(s)
    ensures v < Pow10(|s|)
    decreases |s|
  {
    if s == [] then 0 else Val(s[..|s| - 1]) * 10 + DigitValue(s[|s| - 1])
  }

  /** `n` written with exactly `width` digits, padded with zeros on the left. */
  function FixedDigits(n: nat, width: nat): (s: string)
    requires n < Pow10(width)
    ensures |s| == width && AllDigits(s) && Val(s) == n
    decreases width
  {
    if width == 0 then []
    else
      assert n / 10 < Pow10(width - 1);
      var s := FixedDigits(n / 10, width - 1) + [DigitChar(n % 10)];
      assert s[..|s| - 1] == FixedDigits(n / 10, width - 1);
      s
  }

  /** A number below ten written after `x` differs from one written after `y`
      unless both parts agree. */
  lemma LastDigitUnique(x: nat, d: nat, y: nat, e: nat)
    requires d < 10 && e < 10 && x * 10 + d == y * 10 + e
    ensures x == y && d == e
  {
  }

  /** Two digit strings of the same width denote the same number only if they are equal. */
  lemma {:induction false} ValInjective(a: string, b: string)
    requires |a| == |b| && AllDigits(a) && AllDigits(b)
    requires Val(a) == Val(b)
    ensures a == b
    decreases |a|
  {
    if a != [] {
      var n := |a| - 1;
      assert Val(a) == Val(a[..n]) * 10 + DigitValue(a[n]);
      assert Val(b) == Val(b[..n]) * 10 + DigitValue(b[n]);
      LastDigitUnique(Val(a[..n]), DigitValue(a[n]), Val(b[..n]), DigitValue(b[n]));
      ValInjective(a[..n], b[..n]);
      assert a[n] == b[n];
      assert a == a[..n] + [a[n]] && b == b[..n] + [b[n]];
    }
  }

  /** Writing back a digit string's value at its own width gives the string back. */
  lemma FixedDigitsOfVal(s: string)
    requires AllDigits(s)
    ensures FixedDigits(Val(s), |s|) == s
  {
    ValInjective(FixedDigits(Val(s), |s|), s);
  }

  /** The shortest decimal form of `n`: no leading zero unless `n` is zero. */
  function NatToString(n: nat): (s: string)
    ensures s != [] && AllDigits(s) && Val(s) == n
    ensures |s| > 1 ==> s[0] != '0'
    decreases n
  {
    if n < 10 then [DigitChar(n)]
    else
      var s := NatToString(n / 10) + [DigitChar(n % 10)];
      assert s[..|s| - 1] == NatToString(n / 10);
      s
  }

  /** `String(n)` in JavaScript for an integer `n`. */
  function IntToString(i: int): (s: string)
    ensures s != [] && (s[0] == '-' || IsDigit(s[0]))
    ensures forall k :: 1 <= k < |s| ==> IsDigit(s[k])
  {
    if i < 0 then "-" + NatToString(-i) else NatToString(i)
  }

  /** Reads an optionally negated decimal integer; `None` when `s` is not one. */
  function ParseInt(s: string): (r: Option<int>)
    ensures r.Some? ==> s != []
  {
    if |s| >= 2 && s[0] == '-' && AllDigits(s[1..]) then Some(-(Val(s[1..]) as int))
    else if s != [] && AllDigits(s) then Some(Val(s))
    else None
  }

  /** Reading back the decimal form of an integer gives that integer. */
  lemma ParseIntToString(i: int)
    ensures ParseInt(IntToString(i)) == Some(i)
  {
    if i < 0 {
      assert IntToString(i)[1..] == NatToString(-i);
    }
  }
}
