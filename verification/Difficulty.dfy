/** Conversion between difficulties and hash boundaries: division of 2^256, except that one goes to the largest hash. */
module Difficulty {
  import opened Numerals
  import opened Arithmetic

  const TWO_128: nat := 0x1_0000_0000_0000_0000_0000_0000_0000_0000
  const TWO_256: nat := TWO_128 * TWO_128

  type U256 = n: nat | n < TWO_256

  /** The 512-bit division; nothing for zero, on which the code panics. */
  function Convert(d: U256): Option<nat> {
    if d == 0 then None
    else if d == 1 then Some(TWO_256 - 1)
    else Some(TWO_256 / d)
  }

  // Division facts, for any dividend.

  lemma QuotientRange(n: nat, d: nat)
    requires d > 0
    ensures n / d * d <= n < (n / d + 1) * d
  {
    assert n == n / d * d + n % d;
  }

  /** Dividing: `b <= n / d` says the same as `b * d <= n`. */
  lemma QuotientIff(n: nat, b: nat, d: nat)
    requires d > 0
    ensures b <= n / d <==> b * d <= n
  {
    QuotientRange(n, d);
    if b <= n / d {
      MulMono(b, n / d, d);
    } else {
      MulMono(n / d + 1, b, d);
    }
  }

  /** The conversion fails on zero alone: its result always fits in 256 bits and is never zero. */
  lemma ConversionFits(d: U256)
    ensures Convert(d).None? <==> d == 0
    ensures d != 0 ==> 0 < Convert(d).value < TWO_256
  {
    if d > 1 {
      QuotientIff(TWO_256, 1, d);
      QuotientIff(TWO_256, TWO_256, d);
      MulMono(2, d, TWO_256);
    }
  }

  /** A hash meets the boundary of a difficulty exactly when the difficulty of the hash reaches that difficulty. */
  lemma BoundaryIffDifficulty(b: U256, d: U256)
    requires b != 0 && d != 0
    ensures b <= Convert(d).value <==> d <= Convert(b).value
  {
    if b == 1 || d == 1 {
      ConversionFits(b);
      ConversionFits(d);
    } else {
      QuotientIff(TWO_256, b, d);
      QuotientIff(TWO_256, d, b);
    }
  }

  /** A larger difficulty never has a larger boundary. */
  lemma ConversionAntitone(c: U256, d: U256)
    requires 0 < c <= d
    ensures Convert(d).value <= Convert(c).value
  {
    ConversionFits(c);
    ConversionFits(d);
    var b := Convert(d).value;
    BoundaryIffDifficulty(b, d);
    BoundaryIffDifficulty(b, c);
  }

  /** Converting three times is converting once. */
  lemma ThriceIsOnce(d: U256)
    requires d != 0
    ensures var b := Convert(d).value;
            0 < b < TWO_256 &&
            var e := Convert(b).value;
            0 < e < TWO_256 && Convert(e) == Convert(d)
  {
    ConversionFits(d);
    var b := Convert(d).value;
    ConversionFits(b);
    var e := Convert(b).value;
    ConversionFits(e);
    BoundaryIffDifficulty(b, d);
    BoundaryIffDifficulty(b, e);
    ConversionAntitone(d, e);
  }

  /** The two ends, and every difficulty by which the division leaves less than its quotient. */
  predicate Exact(d: U256)
    requires d != 0
  {
    d == 1 || d == TWO_256 - 1 || TWO_256 % d < TWO_256 / d
  }

  lemma MiddleRoundTrip(d: U256)
    requires 1 < d && TWO_256 / d > 1
    ensures TWO_256 / (TWO_256 / d) == d <==> TWO_256 % d < TWO_256 / d
  {
    var q, r := TWO_256 / d, TWO_256 % d;
    assert TWO_256 == q * d + r;
    // the quotient by q is d exactly when d * q <= 2^256 < (d + 1) * q
    QuotientIff(TWO_256, d, q);
    QuotientIff(TWO_256, d + 1, q);
    assert (d + 1) * q == q * d + q;
  }

  lemma EndQuotients(d: U256)
    requires 1 < d
    ensures TWO_256 / d == 1 ==> TWO_256 % d == TWO_256 - d
    ensures TWO_256 / (TWO_256 - 1) == 1
  {
    QuotientIff(TWO_256, 1, TWO_256 - 1);
    QuotientIff(TWO_256, 2, TWO_256 - 1);
    assert TWO_256 == TWO_256 / d * d + TWO_256 % d;
  }

  /** The round trip gives back the difficulty if and only if it is an exact one. */
  lemma RoundTripIff(d: U256)
    requires d != 0
    ensures var b := Convert(d).value; 0 < b < TWO_256 && (Convert(b) == Some(d) <==> Exact(d))
  {
    ConversionFits(d);
    if d > 1 {
      EndQuotients(d);
      if TWO_256 / d > 1 {
        MiddleRoundTrip(d);
      }
    } else {
      EndQuotients(2);
    }
  }

  /** Every difficulty up to 2^128 is exact. */
  lemma SmallDifficultiesExact(d: U256)
    requires 0 < d <= TWO_128
    ensures Exact(d)
  {
    QuotientIff(TWO_256, TWO_128, d);
    MulMono(d, TWO_128, TWO_128);
  }

  /** Between half of 2^256 and the largest difficulty none is exact: all of them come back as 2^256 - 1. */
  lemma LargeDifficultiesInexact(d: U256)
    requires TWO_256 / 2 < d < TWO_256 - 1
    ensures !Exact(d) && Convert(d) == Some(1) && Convert(1) == Some(TWO_256 - 1)
  {
    QuotientIff(TWO_256, 1, d);
    QuotientIff(TWO_256, 2, d);
    EndQuotients(d);
  }

  /** The result is the largest number whose product with the difficulty does not exceed 2^256; for one, one less. */
  lemma ConversionIsQuotient(d: U256)
    requires d != 0
    ensures d == 1 ==> Convert(d) == Some(TWO_256 - 1)
    ensures d > 1 ==> Convert(d).value * d <= TWO_256 < (Convert(d).value + 1) * d
    ensures TWO_256 == 0x1_0000_0000_0000_0000_0000_0000_0000_0000_0000_0000_0000_0000_0000_0000_0000_0000
  {
    QuotientRange(TWO_256, d);
  }
}
