/** Powers of two, and facts on products, quotients and remainders that several modules use. */
module Arithmetic {
  import opened Numerals

  function Pow2(n: nat): (p: nat)
    ensures p >= 1
  {
    if n == 0 then 1 else 2 * Pow2(n - 1)
  }

  lemma Pow2OfWord()
    ensures Pow2(63) == TWO_64 / 2 && Pow2(64) == TWO_64
  {
    assert Pow2(8) == 256;
    assert Pow2(16) == 0x1_0000;
    assert Pow2(24) == 0x100_0000;
    assert Pow2(32) == 0x1_0000_0000;
    assert Pow2(40) == 0x100_0000_0000;
    assert Pow2(48) == 0x1_0000_0000_0000;
    assert Pow2(56) == 0x100_0000_0000_0000;
  }

  lemma MulAtLeast(a: nat, r: nat)
    requires a >= 1
    ensures a * r >= r
  {
  }

  lemma MulMono(a: nat, b: nat, r: nat)
    requires a <= b
    ensures a * r <= b * r
  {
  }

  /** Division with remainder is unique. */
  lemma QuotientIs(v: nat, r: nat, d: nat)
    requires d < r
    ensures (v * r + d) / r == v && (v * r + d) % r == d
  {
    var n := v * r + d;
    var q := n / r;
    assert (v - q) * r == n % r - d;
    if q < v {
      MulAtLeast(v - q, r);
    } else if q > v {
      MulAtLeast(q - v, r);
    }
  }

  lemma Halves(h: nat, b: nat)
    requires b < 2
    ensures (2 * h + b) / 2 == h && (2 * h + b) % 2 == b
  {
  }

  /** The remainder by an even number, from that of the half. */
  lemma HalfRemainder(x: nat, p: nat)
    requires p > 0
    ensures x % (2 * p) == 2 * (x / 2 % p) + x % 2
  {
    var q, r := x / 2 / p, x / 2 % p;
    assert x / 2 == q * p + r;
    assert x == q * (2 * p) + (2 * r + x % 2);
    QuotientIs(q, 2 * p, 2 * r + x % 2);
  }

  /** Dropping the high bits and taking the half commute. */
  lemma LowHalf(x: nat, k: nat)
    requires k > 0
    ensures x % Pow2(k) == 2 * (x / 2 % Pow2(k - 1)) + x % 2
    ensures x % Pow2(k) / 2 == x / 2 % Pow2(k - 1) && x % Pow2(k) % 2 == x % 2
  {
    HalfRemainder(x, Pow2(k - 1));
    Halves(x / 2 % Pow2(k - 1), x % 2);
  }

  lemma DivideTwice(x: nat, a: nat, b: nat)
    requires a > 0 && b > 0
    ensures a * b > 0 && x / (a * b) == x / a / b
  {
    var q, r := x / a, x % a;
    var p, s := q / b, q % b;
    assert x == q * a + r && q == p * b + s;
    assert x == p * (a * b) + (s * a + r);
    MulMono(s + 1, b, a);
    assert (s + 1) * a == s * a + a;
    assert s * a + r < a * b;
    QuotientIs(p, a * b, s * a + r);
  }
}
