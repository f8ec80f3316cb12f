/** 32-bit unsigned words as numbers, with the wrapping and bitwise operations that the hashing code uses. */
module Words {
  import opened Arithmetic

  const TWO_32: nat := 0x1_0000_0000

  type u32 = n: nat | n < TWO_32

  lemma Pow2Of32()
    ensures Pow2(32) == TWO_32
  {
    assert Pow2(8) == 0x100 && Pow2(16) == 0x1_0000 && Pow2(24) == 0x100_0000;
  }

  function Bit(b: bool): nat {
    if b then 1 else 0
  }

  // Bitwise operations on the low `n` bits.

  function XorBits(x: nat, y: nat, n: nat): nat {
    if n == 0 then 0 else 2 * XorBits(x / 2, y / 2, n - 1) + Bit(x % 2 != y % 2)
  }

  function AndBits(x: nat, y: nat, n: nat): nat {
    if n == 0 then 0 else 2 * AndBits(x / 2, y / 2, n - 1) + Bit(x % 2 == 1 && y % 2 == 1)
  }

  function OrBits(x: nat, y: nat, n: nat): nat {
    if n == 0 then 0 else 2 * OrBits(x / 2, y / 2, n - 1) + Bit(x % 2 == 1 || y % 2 == 1)
  }

  function CountBits(x: nat, n: nat): nat {
    if n == 0 then 0 else CountBits(x / 2, n - 1) + x % 2
  }

  function BitLength(x: nat): nat {
    if x == 0 then 0 else 1 + BitLength(x / 2)
  }

  lemma {:induction false} BitwiseBound(x: nat, y: nat, n: nat)
    ensures XorBits(x, y, n) < Pow2(n) && AndBits(x, y, n) < Pow2(n) && OrBits(x, y, n) < Pow2(n)
    ensures CountBits(x, n) <= n
  {
    if n > 0 {
      BitwiseBound(x / 2, y / 2, n - 1);
    }
  }

  lemma {:induction false} BitLengthBound(x: nat, n: nat)
    requires x < Pow2(n)
    ensures BitLength(x) <= n
  {
    if x > 0 {
      BitLengthBound(x / 2, n - 1);
    }
  }

  function Xor(x: u32, y: u32): u32 {
    BitwiseBound(x, y, 32);
    Pow2Of32();
    XorBits(x, y, 32)
  }

  function And(x: u32, y: u32): u32 {
    BitwiseBound(x, y, 32);
    Pow2Of32();
    AndBits(x, y, 32)
  }

  function Or(x: u32, y: u32): u32 {
    BitwiseBound(x, y, 32);
    Pow2Of32();
    OrBits(x, y, 32)
  }

  function Not(x: u32): u32 {
    TWO_32 - 1 - x
  }

  function Add(x: u32, y: u32): u32 {
    (x + y) % TWO_32
  }

  function Mul(x: u32, y: u32): u32 {
    (x * y) % TWO_32
  }

  /** The high word of the 64-bit product. */
  function MulHigh(x: u32, y: u32): u32 {
    ProductBound(x, y);
    x * y / TWO_32
  }

  lemma ProductBound(x: u32, y: u32)
    ensures x * y < TWO_32 * TWO_32
  {
    MulMono(y, TWO_32, x);
  }

  function RotateLeft1(x: u32): u32 {
    2 * x % TWO_32 + x / 0x8000_0000
  }

  function RotateLeft(x: u32, n: nat): u32 {
    if n == 0 then x else RotateLeft1(RotateLeft(x, n - 1))
  }

  function RotateRight(x: u32, n: nat): u32
    requires n <= 32
  {
    RotateLeft(x, 32 - n)
  }

  function LeadingZeros(x: u32): nat {
    Pow2Of32();
    BitLengthBound(x, 32);
    32 - BitLength(x)
  }

  function CountOnes(x: u32): nat {
    CountBits(x, 32)
  }

  /** The four bytes of a word in the opposite order. */
  function SwapBytes(x: u32): u32 {
    x % 0x100 * 0x100_0000 + x / 0x100 % 0x100 * 0x1_0000 + x / 0x1_0000 % 0x100 * 0x100 + x / 0x100_0000
  }

  /** Xor twice with the same value gives back the low bits. */
  lemma {:induction false} XorTwice(x: nat, y: nat, n: nat)
    requires x < Pow2(n)
    ensures XorBits(XorBits(x, y, n), y, n) == x
  {
    if n > 0 {
      XorTwice(x / 2, y / 2, n - 1);
      var r := XorBits(x, y, n);
      assert r / 2 == XorBits(x / 2, y / 2, n - 1) && r % 2 == Bit(x % 2 != y % 2);
    }
  }

  function Mod(x: nat, n: nat): (r: nat)
    requires n > 0
    ensures r < n
  {
    x % n
  }
}
