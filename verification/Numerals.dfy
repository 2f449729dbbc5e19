/**
 Numbers as text: digits in a base, and the parsing of decimal text.
 */
module Numerals {

  const WORD := 0x1_0000_0000

  const DIGITS := "0123456789abcdef"

  function DigitValue(c: char): int {
    if '0' <= c <= '9' then c as int - '0' as int
    else if 'a' <= c <= 'f' then c as int - 'a' as int + 10
    else -1
  }

  lemma DigitOk(d: nat)
    requires d < 16
    ensures |DIGITS| == 16 && DigitValue(DIGITS[d]) == d
    ensures d < 10 ==> '0' <= DIGITS[d] <= '9'
  {
    if d == 0 {} else if d == 1 {} else if d == 2 {} else if d == 3 {} else if d == 4 {} else if d == 5 {}
    else if d == 6 {} else if d == 7 {} else if d == 8 {} else if d == 9 {} else if d == 10 {} else if d == 11 {}
    else if d == 12 {} else if d == 13 {} else if d == 14 {} else { assert d == 15; }
  }

  function Digit(d: nat): (c: char)
    requires d < 16
    ensures DigitValue(c) == d && (d < 10 ==> '0' <= c <= '9')
  {
    DigitOk(d);
    DIGITS[d]
  }

  /** The digits of a number, most significant first; 0 is one digit. */
  function Digits(n: nat, base: nat): (s: string)
    requires 2 <= base <= 16
    ensures |s| >= 1
  {
    if n < base then [Digit(n)] else Digits(n / base, base) + [Digit(n % base)]
  }

  /** What text says as a number in a base. */
  function Value(s: string, base: nat): int
    requires base >= 2
  {
    if s == [] then 0 else Value(s[..|s| - 1], base) * base + DigitValue(s[|s| - 1])
  }

  lemma ValueMore(s: string, c: char, base: nat)
    requires base >= 2
    ensures Value(s + [c], base) == Value(s, base) * base + DigitValue(c)
  {
    assert (s + [c])[..|s|] == s;
  }

  lemma DivMod(n: nat, b: nat)
    requires b > 0
    ensures n / b * b + n % b == n && n % b < b && (b >= 2 && n >= b ==> n / b < n)
  {
  }

  /** The digits say the number. */
  lemma {:induction false} DigitsValue(n: nat, base: nat)
    requires 2 <= base <= 16
    ensures Value(Digits(n, base), base) == n
    decreases n
  {
    hide Value, DigitValue;
    if n < base {
      ValueMore([], Digit(n), base);
      assert [] + [Digit(n)] == [Digit(n)];
      ValueNone(base);
    } else {
      DivMod(n, base);
      DigitsValue(n / base, base);
      ValueMore(Digits(n / base, base), Digit(n % base), base);
    }
  }

  lemma ValueNone(base: nat)
    requires base >= 2
    ensures Value([], base) == 0
  {
  }

  predicate Decimal(s: string) {
    forall k :: 0 <= k < |s| ==> '0' <= s[k] <= '9'
  }

  lemma {:induction false} DigitsDecimal(n: nat)
    ensures Decimal(Digits(n, 10))
    decreases n
  {
    if n >= 10 {
      DigitsDecimal(n / 10);
    }
  }

  function Pow(b: nat, e: nat): (p: nat)
    ensures b > 0 ==> p > 0
  {
    if e == 0 then 1 else b * Pow(b, e - 1)
  }

  /** Numbers below `base` to the `k` have at most `k` digits. */
  lemma {:induction false} DigitsLength(n: nat, base: nat, k: nat)
    requires 2 <= base <= 16 && k >= 1 && n < Pow(base, k)
    ensures |Digits(n, base)| <= k
    decreases k
  {
    if n >= base && k > 1 {
      Quotient(n, base, Pow(base, k - 1));
      DigitsLength(n / base, base, k - 1);
    }
  }

  lemma Quotient(n: nat, b: nat, m: nat)
    requires b > 0 && n < b * m
    ensures n / b < m
  {
    DivMod(n, b);
    Scaled(n / b, m, b);
  }

  lemma Scaled(q: nat, m: nat, b: nat)
    ensures q >= m ==> q * b >= m * b
  {
  }

  /** Numbers from `base` to the `k` on have more than `k` digits. */
  lemma {:induction false} DigitsAtLeast(n: nat, base: nat, k: nat)
    requires 2 <= base <= 16 && n >= Pow(base, k)
    ensures |Digits(n, base)| > k
    decreases k
  {
    if k > 0 {
      QuotientAtLeast(n, base, Pow(base, k - 1));
      DigitsAtLeast(n / base, base, k - 1);
    }
  }

  lemma QuotientAtLeast(n: nat, b: nat, m: nat)
    requires b > 0 && n >= b * m
    ensures n / b >= m && (m > 0 ==> n >= b)
  {
    DivMod(n, b);
    Scaled(m, n / b + 1, b);
    Scaled(m, 1, b);
  }

  lemma PowersOf8()
    ensures Pow(8, 10) == 0x4000_0000 && Pow(8, 11) == 0x2_0000_0000
  {
    assert Pow(8, 2) == 64;
    assert Pow(8, 4) == 4096;
    assert Pow(8, 6) == 0x4_0000;
    assert Pow(8, 8) == 0x100_0000;
  }

  lemma PowersOf10()
    ensures Pow(10, 11) == 100_000_000_000
  {
    assert Pow(10, 2) == 100;
    assert Pow(10, 4) == 10_000;
    assert Pow(10, 6) == 1_000_000;
    assert Pow(10, 8) == 100_000_000;
  }

  lemma PowersOf16()
    ensures Pow(16, 11) == 0x1000_0000_0000
  {
    assert Pow(16, 2) == 256;
    assert Pow(16, 4) == 0x1_0000;
    assert Pow(16, 6) == 0x100_0000;
    assert Pow(16, 8) == 0x1_0000_0000;
  }

  /** A 32-bit number has at most 11 digits in base 8, 10 or 16; in base 8 some have that many. */
  lemma WordDigits(n: nat, base: nat)
    requires n < WORD && (base == 8 || base == 10 || base == 16)
    ensures |Digits(n, base)| <= 11
    ensures base == 8 && n >= 0x4000_0000 ==> |Digits(n, base)| == 11
  {
    PowersOf8();
    PowersOf10();
    PowersOf16();
    DigitsLength(n, base, 11);
    if base == 8 && n >= 0x4000_0000 {
      DigitsAtLeast(n, base, 10);
    }
  }
}
