/** Decimal digit strings: what `Number(s)` yields for a string of ASCII digits
    and what `n.toString()` yields for a non-negative integer. */
module Decimal {

  predicate IsDigit(c: char) {
    '0' <= c <= '9'
  }

  predicate AllDigits(s: string) {
    forall i :: 0 <= i < |s| ==> IsDigit(s[i])
  }

  function DigitValue(c: char): (v: int)
    requires IsDigit(c)
    ensures 0 <= v <= 9
  {
    c as int - '0' as int
  }

  function DigitChar(v: int): (c: char)
    requires 0 <= v <= 9
    ensures IsDigit(c) && DigitValue(c) == v
  {
    ('0' as int + v) as char
  }

  function Pow10(n: nat): (p: nat)
    ensures p >= 1
  {
    if n == 0 then 1 else 10 * Pow10(n - 1)
  }

  /** The value of a string of decimal digits, most significant digit first
      (the empty string denotes 0, as `Number('')` does). */
  function NumberValue(s: string): (v: nat)
    requires AllDigits(s)
    ensures v < Pow10(|s|)
    decreases |s|
  {
    if s == [] then 0 else NumberValue(s[..|s| - 1]) * 10 + DigitValue(s[|s| - 1])
  }

  /** The canonical decimal text of `n`: digits only, no leading zero. */
  function ToDecimalString(n: nat): (s: string)
    ensures 1 <= |s| && AllDigits(s)
    ensures NumberValue(s) == n
    ensures n >= 10 ==> |s| >= 2
    ensures |s| > 1 ==> s[0] != '0'
  {
    if n < 10 then [DigitChar(n)]
    else
      var prefix := ToDecimalString(n / 10);
      var s := prefix + [DigitChar(n % 10)];
      assert s[..|s| - 1] == prefix;
      s
  }

  /** A number from 10 to 99 is written with two digits. */
  lemma TwoDigitText(m: nat)
    requires 10 <= m <= 99
    ensures |ToDecimalString(m)| == 2
  {
    assert ToDecimalString(m / 10) == [DigitChar(m / 10)];
  }

  /** The text of a number from 100 on ends in its tens and units digits. */
  lemma LastTwoDigitsText(n: nat)
    requires n >= 100
    ensures ToDecimalString(n) == ToDecimalString(n / 100) + [DigitChar(n / 10 % 10), DigitChar(n % 10)]
  {
    var m := n / 10;
    assert m >= 10 && m / 10 == n / 100;
    assert ToDecimalString(m) == ToDecimalString(m / 10) + [DigitChar(m % 10)];
  }

  /** The tens and units digits of `n` make up `n % 100`. */
  lemma TensAndUnits(n: nat)
    ensures 10 * (n / 10 % 10) + n % 10 == n % 100
  {
    var q := n / 100;
    var r := n % 100;
    assert n == 100 * q + r;
    assert n / 10 == 10 * q + r / 10;
    assert n % 10 == r % 10;
  }

  /** The leading digit of a digit string weighs `10^(|s|-1)`. */
  lemma {:induction false} LeadingDigit(s: string)
    requires AllDigits(s) && |s| >= 1
    ensures NumberValue(s) == DigitValue(s[0]) * Pow10(|s| - 1) + NumberValue(s[1..])
    decreases |s|
  {
    if |s| > 1 {
      var init, d0, last := s[..|s| - 1], DigitValue(s[0]), DigitValue(s[|s| - 1]);
      var p := Pow10(|s| - 2);
      LeadingDigit(init);
      assert init[0] == s[0];
      assert init[1..] == s[1..][..|s[1..]| - 1];
      var rest := NumberValue(init[1..]);
      calc {
        NumberValue(s);
        NumberValue(init) * 10 + last;
        (d0 * p + rest) * 10 + last;
        { ShiftLeadingDigit(d0, p, rest, last); }
        d0 * Pow10(|s| - 1) + (rest * 10 + last);
        d0 * Pow10(|s| - 1) + NumberValue(s[1..]);
      }
    }
  }

  lemma ShiftLeadingDigit(d: int, p: int, rest: int, last: int)
    ensures (d * p + rest) * 10 + last == d * (10 * p) + (rest * 10 + last)
  {
    assert (d * p) * 10 == d * (10 * p);
  }

  /** The value of a short digit string, spelled out digit by digit. */
  lemma ShortNumberValue(s: string)
    requires AllDigits(s) && 1 <= |s| <= 4
    ensures |s| == 1 ==> NumberValue(s) == DigitValue(s[0])
    ensures |s| == 2 ==> NumberValue(s) == 10 * DigitValue(s[0]) + DigitValue(s[1])
    ensures |s| == 4 ==>
      NumberValue(s) == 1000 * DigitValue(s[0]) + 100 * DigitValue(s[1]) + 10 * DigitValue(s[2]) + DigitValue(s[3])
  {
    assert s[..|s| - 1][..0] == [];
    if |s| >= 2 {
      assert s[..|s| - 1][..|s| - 2][..|s| - 2] == s[..|s| - 2];
    }
    if |s| == 4 {
      assert s[..3][..2][..1] == s[..1];
      assert s[..1][..0] == [];
    }
  }

  /** Appending digits shifts the value of the prefix left by their count. */
  lemma {:induction false} NumberValueAppend(a: string, b: string)
    requires AllDigits(a) && AllDigits(b)
    ensures AllDigits(a + b)
    ensures NumberValue(a + b) == NumberValue(a) * Pow10(|b|) + NumberValue(b)
    decreases |b|
  {
    var ab := a + b;
    if b != [] {
      var init := b[..|b| - 1];
      assert ab[..|ab| - 1] == a + init;
      NumberValueAppend(a, init);
      var va, p := NumberValue(a), Pow10(|init|);
      calc {
        NumberValue(ab);
        NumberValue(a + init) * 10 + DigitValue(b[|b| - 1]);
        (va * p + NumberValue(init)) * 10 + DigitValue(b[|b| - 1]);
        { ShiftLeadingDigit(va, p, NumberValue(init), DigitValue(b[|b| - 1])); }
        va * Pow10(|b|) + NumberValue(b);
      }
    } else {
      assert ab == a;
    }
  }

  /** Two digit strings of the same length with the same value are equal. */
  lemma {:induction false} NumberValueInjective(a: string, b: string)
    requires AllDigits(a) && AllDigits(b) && |a| == |b|
    requires NumberValue(a) == NumberValue(b)
    ensures a == b
    decreases |a|
  {
    if |a| > 0 {
      var n := |a|;
      assert DigitValue(a[n - 1]) == NumberValue(a) % 10;
      assert DigitValue(b[n - 1]) == NumberValue(b) % 10;
      assert NumberValue(a[..n - 1]) == NumberValue(b[..n - 1]);
      NumberValueInjective(a[..n - 1], b[..n - 1]);
      assert a == a[..n - 1] + [a[n - 1]];
      assert b == b[..n - 1] + [b[n - 1]];
    }
  }
}
