/** The mod-10 checksum of an identity number: the Luhn formula of
    ISO/IEC 7812-1, Annex B, written the way the validator walks the digits
    (left to right, multiplier 1 on even positions and 2 on odd ones). */
module LuhnChecksum {
  import opened Decimal

  /** The multiplier the validator uses at position `i`. */
  function Multiplier(i: nat): (m: int)
    ensures m == 1 || m == 2
    ensures m == 2 <==> i % 2 == 1
  {
    if i % 2 == 0 then 1 else 2
  }

  /** The validator's fold of a product above 9: the sum of the first two
      characters of its decimal text. For every two-digit product the
      validator can form (at most 9 * 2) this is subtracting 9. */
  function DigitSumOfProduct(p: nat): (f: int)
    requires p >= 10
    ensures p <= 18 ==> f == p - 9
  {
    var text := ToDecimalString(p);
    assert p <= 18 ==> |text| == 2 && NumberValue(text) == DigitValue(text[0]) * 10 + DigitValue(text[1]) by {
      if p <= 18 {
        assert ToDecimalString(p / 10) == [DigitChar(p / 10)];
        assert text[..1] == [text[0]];
      }
    }
    DigitValue(text[0]) + DigitValue(text[1])
  }

  /** Luhn's contribution of digit `d` with multiplier `m`: the product, less 9
      when it has two digits. */
  function LuhnTerm(d: int, m: int): (t: int)
    requires 0 <= d <= 9 && (m == 1 || m == 2)
    ensures 0 <= t <= 9
  {
    var p := d * m;
    if p > 9 then p - 9 else p
  }

  /** Luhn's term is the validator's: the product itself when it is a single
      digit, the sum of its two decimal digits otherwise. */
  lemma LuhnTermIsDigitSum(d: int, m: int)
    requires 0 <= d <= 9 && (m == 1 || m == 2)
    ensures d * m <= 9 ==> LuhnTerm(d, m) == d * m
    ensures d * m > 9 ==> LuhnTerm(d, m) == DigitSumOfProduct(d * m)
  {
    if m == 1 {
      assert d * m == d;
    } else {
      assert d * m == 2 * d <= 18;
    }
  }

  /** With a fixed multiplier, different digits contribute different terms. */
  lemma LuhnTermInjective(d: int, e: int, m: int)
    requires 0 <= d <= 9 && 0 <= e <= 9 && (m == 1 || m == 2)
    requires d != e
    ensures LuhnTerm(d, m) != LuhnTerm(e, m)
  {
  }

  /** The checksum over the first `n` characters of `s`. */
  function CheckSum(s: string, n: nat): (sum: int)
    requires n <= |s| && AllDigits(s)
    ensures 0 <= sum <= 9 * n
  {
    if n == 0 then 0
    else CheckSum(s, n - 1) + LuhnTerm(DigitValue(s[n - 1]), Multiplier(n - 1))
  }

  /** The Luhn sum as ISO/IEC 7812-1 states it: from the rightmost digit
      leftwards, doubling every second digit; `doubled` says whether the
      rightmost digit of `s` is one of them. */
  function LuhnSumFromRight(s: string, doubled: bool): (sum: int)
    requires AllDigits(s)
    ensures 0 <= sum <= 9 * |s|
    decreases |s|
  {
    if s == [] then 0
    else
      LuhnTerm(DigitValue(s[|s| - 1]), if doubled then 2 else 1)
      + LuhnSumFromRight(s[..|s| - 1], !doubled)
  }

  /** Walking left to right with the validator's multipliers sums the same
      terms as Luhn's right-to-left walk over the same prefix. */
  lemma {:induction false} CheckSumMatchesLuhnPrefix(s: string, n: nat)
    requires n <= |s| && AllDigits(s)
    ensures CheckSum(s, n) == LuhnSumFromRight(s[..n], n % 2 == 0)
  {
    if n > 0 {
      CheckSumMatchesLuhnPrefix(s, n - 1);
      assert s[..n][..n - 1] == s[..n - 1];
    }
  }

  /** For a digit string of odd length (13 for an identity number) the
      validator's checksum is the ISO/IEC 7812-1 Luhn sum: the check digit at
      the right is not doubled, its left neighbour is, and so on. */
  lemma CheckSumIsLuhn(s: string)
    requires AllDigits(s) && |s| % 2 == 1
    ensures CheckSum(s, |s|) == LuhnSumFromRight(s, false)
  {
    CheckSumMatchesLuhnPrefix(s, |s|);
    assert s[..|s|] == s;
  }

  /** Two digit strings that agree everywhere except at position `k` have
      checksums that differ by the difference of their terms at `k`. */
  lemma {:induction false} CheckSumDiffersAt(s: string, t: string, k: nat, n: nat)
    requires AllDigits(s) && AllDigits(t) && |s| == |t| && k < |s| && n <= |s|
    requires forall i :: 0 <= i < |s| && i != k ==> s[i] == t[i]
    ensures CheckSum(s, n) - CheckSum(t, n) ==
      if n <= k then 0
      else LuhnTerm(DigitValue(s[k]), Multiplier(k)) - LuhnTerm(DigitValue(t[k]), Multiplier(k))
  {
    if n > 0 {
      CheckSumDiffersAt(s, t, k, n - 1);
    }
  }

  /** The checksum catches every single-digit error: changing one digit
      changes the checksum modulo 10, so at most one of the two strings
      passes the `% 10 == 0` test. */
  lemma SingleDigitErrorDetected(s: string, t: string, k: nat)
    requires AllDigits(s) && AllDigits(t) && |s| == |t| && k < |s|
    requires s[k] != t[k]
    requires forall i :: 0 <= i < |s| && i != k ==> s[i] == t[i]
    ensures CheckSum(s, |s|) % 10 != CheckSum(t, |t|) % 10
  {
    CheckSumDiffersAt(s, t, k, |s|);
    LuhnTermInjective(DigitValue(s[k]), DigitValue(t[k]), Multiplier(k));
    NearDistinctResidues(CheckSum(s, |s|), CheckSum(t, |t|));
  }

  lemma NearDistinctResidues(a: int, b: int)
    requires a != b && -10 < a - b < 10
    ensures a % 10 != b % 10
  {
  }
}
