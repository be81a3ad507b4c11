/**
 Decimal numerals and rounding.

 Numerals are printed with and without a fixed width and read back, digit by digit from the
 right. Rounding is to the nearest whole number, ties to even, as Python's `round` does it; it
 is stated on a numerator and a denominator, so no fraction is ever represented inexactly.
 */
module Decimal {
  import opened Prelude

  function Digit(d: nat): char
    requires d < 10
  {
    ['0', '1', '2', '3', '4', '5', '6', '7', '8', '9'][d]
  }

  /** The last `width` decimal digits of `n`. */
  function Pad(n: nat, width: nat): (s: string)
    ensures |s| == width
  {
    if width == 0 then "" else Pad(n / 10, width - 1) + [Digit(n % 10)]
  }

  /** Decimal digits without leading zeros. */
  function Digits(n: nat): (s: string)
    ensures s != ""
  {
    if n < 10 then [Digit(n)] else Digits(n / 10) + [Digit(n % 10)]
  }

  ghost function PowerOfTen(k: nat): nat {
    if k == 0 then 1 else 10 * PowerOfTen(k - 1)
  }

  function DigitValue(c: char): Option<nat> {
    if '0' <= c <= '9' then Some((c as int - '0' as int) as nat) else None
  }

  function ParseDigits(s: string): Option<nat> {
    if s == "" then Some(0)
    else
      match (ParseDigits(s[..|s| - 1]), DigitValue(s[|s| - 1]))
      case (Some(n), Some(d)) => Some(10 * n + d)
      case _ => None
  }

  lemma ParseSnoc(s: string, d: nat)
    requires d < 10 && ParseDigits(s).Some?
    ensures ParseDigits(s + [Digit(d)]) == Some(10 * ParseDigits(s).value + d)
  {
    assert (s + [Digit(d)])[..|s|] == s;
  }

  lemma {:induction false} ParsePad(n: nat, width: nat)
    requires n < PowerOfTen(width)
    ensures ParseDigits(Pad(n, width)) == Some(n)
  {
    if width > 0 {
      ParsePad(n / 10, width - 1);
      ParseSnoc(Pad(n / 10, width - 1), n % 10);
    }
  }

  lemma {:induction false} ParseOfDigits(n: nat)
    ensures ParseDigits(Digits(n)) == Some(n)
  {
    if n < 10 {
      ParseSnoc("", n);
      assert "" + [Digit(n)] == Digits(n);
    } else {
      ParseOfDigits(n / 10);
      ParseSnoc(Digits(n / 10), n % 10);
    }
  }

  // ----- Rounding -----

  /** The integer nearest to num / den; of two equally near, the even one. */
  function Round(num: int, den: int): int
    requires den > 0
  {
    var q, r := num / den, num % den;
    if 2 * r < den then q
    else if 2 * r > den then q + 1
    else if q % 2 == 0 then q else q + 1
  }

  /** At most half away, and an even number if exactly half. */
  predicate Nearest(n: int, num: int, den: int)
    requires den > 0
  {
    && -den <= 2 * (n * den - num) <= den
    && (2 * (n * den - num) == den || 2 * (n * den - num) == -den ==> n % 2 == 0)
  }

  lemma RoundIsNearest(num: int, den: int)
    requires den > 0
    ensures Nearest(Round(num, den), num, den)
  {
    var q, r := num / den, num % den;
    assert num == q * den + r;
    assert (q + 1) * den == q * den + den;
  }

  /** No other number is. */
  lemma NearestIsRound(n: int, num: int, den: int)
    requires den > 0 && Nearest(n, num, den)
    ensures n == Round(num, den)
  {
    var m := Round(num, den);
    RoundIsNearest(num, den);
    if n < m {
      NearestApart(n, m, num, den);
    } else if m < n {
      NearestApart(m, n, num, den);
    }
  }

  lemma NearestApart(m: int, n: int, num: int, den: int)
    requires den > 0 && m < n && Nearest(m, num, den)
    ensures !Nearest(n, num, den)
  {
    TimesStrict(m + 1, n, den);
    assert (m + 1) * den == m * den + den;
  }

  lemma {:induction false} TimesStrict(a: int, b: int, k: nat)
    requires k > 0
    ensures a * k < b * k <==> a < b
  {
    if k > 1 {
      TimesStrict(a, b, k - 1);
      assert a * k == a * (k - 1) + a && b * k == b * (k - 1) + b;
    }
  }

  /** A fraction that reaches a whole number of cents is not rounded below it. */
  lemma RoundAtLeast(c: int, num: int, den: int)
    requires den > 0 && c * den <= num
    ensures c <= Round(num, den)
  {
    var q := num / den;
    assert num < (q + 1) * den;
    TimesStrict(c, q + 1, den);
  }

  lemma RoundWhole(c: int, den: int)
    requires den > 0
    ensures Round(c * den, den) == c
  {
    var q := (c * den) / den;
    assert q * den <= c * den < (q + 1) * den;
    TimesStrict(c, q + 1, den);
    TimesStrict(c, q, den);
    assert q == c;
  }

  lemma RoundNonNegative(n: nat, den: nat)
    requires den > 0
    ensures Round(n, den) >= 0
  {
    RoundAtLeast(0, n, den);
  }
}
