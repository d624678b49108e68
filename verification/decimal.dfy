/** Decimal digit strings and the natural numbers they denote: `parseInt(s, 10)` / `int(s)` on a
    string of ASCII digits, and `String(n)` / `str(n)` on a natural number. */
module Decimal {
  import opened Chars

  function DigitValue(c: char): (v: nat)
    requires IsDigit(c)
    ensures v < 10
  {
    c as int - '0' as int
  }

  function DigitChar(v: nat): (c: char)
    requires v < 10
    ensures IsDigit(c) && DigitValue(c) == v
  {
    ('0' as int + v) as char
  }

  /** The value of a digit string, leading zeros allowed (`"007"` is 7); the empty string is 0. */
  function DigitsToNat(s: string): nat
    requires AllDigits(s)
  {
    if |s| == 0 then 0 else 10 * DigitsToNat(s[..|s| - 1]) + DigitValue(s[|s| - 1])
  }

  /** The shortest decimal rendering of `n`: no leading zero, `"0"` for zero. */
  function NatToDigits(n: nat): (s: string)
    ensures |s| >= 1 && AllDigits(s)
    ensures |s| > 1 ==> s[0] != '0'
  {
    if n < 10 then [DigitChar(n)] else NatToDigits(n / 10) + [DigitChar(n % 10)]
  }

  /** `String(n)` read back by `parseInt` gives `n`. */
  lemma {:induction false} DigitsRoundTrip(n: nat)
    ensures DigitsToNat(NatToDigits(n)) == n
  {
    var s := NatToDigits(n);
    if n >= 10 {
      DigitsRoundTrip(n / 10);
      assert s[..|s| - 1] == NatToDigits(n / 10);
    }
  }

  /** The value of the rendering of `n`, for digit strings written out. */
  lemma {:induction false} DigitsValue(s: string, n: nat)
    requires s == NatToDigits(n)
    ensures DigitsToNat(s) == n
  {
    DigitsRoundTrip(n);
  }

  /** Reading is insensitive to one leading zero. */
  lemma {:induction false} LeadingZero(s: string)
    requires AllDigits(s)
    ensures DigitsToNat("0" + s) == DigitsToNat(s)
  {
    if |s| > 0 {
      assert ("0" + s)[..|"0" + s| - 1] == "0" + s[..|s| - 1];
      LeadingZero(s[..|s| - 1]);
    }
  }

  /** The value of a string of at most two digits, for the fraction of an amount. */
  lemma {:induction false} TwoDigitsValue(s: string)
    requires AllDigits(s) && |s| == 2
    ensures DigitsToNat(s) == 10 * DigitValue(s[0]) + DigitValue(s[1])
  {
    assert s[..1][..0] == [];
    assert DigitsToNat(s[..1]) == DigitValue(s[0]);
  }
}
