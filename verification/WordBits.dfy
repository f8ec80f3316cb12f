/** What the word operations do to single bits and bytes: every one of them, for all words. */
module WordBits {
  import opened Arithmetic
  import opened Words

  /** Bit `i` of a number, the lowest one first. */
  ghost function BitAt(x: nat, i: nat): (b: nat)
    ensures b < 2
  {
    x / Pow2(i) % 2
  }

  /** The bits of the half are those behind the lowest one. */
  lemma HalfBit(x: nat, i: nat)
    ensures BitAt(x, i + 1) == BitAt(x / 2, i) && BitAt(x, 0) == x % 2
  {
    DivideTwice(x, 2, Pow2(i));
  }

  lemma BitOfDouble(h: nat, b: nat, i: nat)
    requires b < 2
    ensures BitAt(2 * h + b, i) == if i == 0 then b else BitAt(h, i - 1)
  {
    Halves(h, b);
    if i > 0 {
      HalfBit(2 * h + b, i - 1);
    } else {
      HalfBit(2 * h + b, 0);
    }
  }

  lemma {:induction false} BitOfLow(x: nat, k: nat, i: nat)
    ensures BitAt(x % Pow2(k), i) == if i < k then BitAt(x, i) else 0
  {
    if k > 0 {
      LowHalf(x, k);
      var l := x % Pow2(k);
      HalfBit(x, 0);
      if i > 0 {
        HalfBit(l, i - 1);
        HalfBit(x, i - 1);
        BitOfLow(x / 2, k - 1, i - 1);
      } else {
        HalfBit(l, 0);
      }
    } else {
      assert x % 1 == 0;
    }
  }

  /** Numbers below a power of two are told apart by their bits. */
  lemma {:induction false} SameBits(x: nat, y: nat, n: nat)
    requires x < Pow2(n) && y < Pow2(n) && forall i :: 0 <= i < n ==> BitAt(x, i) == BitAt(y, i)
    ensures x == y
  {
    if n > 0 {
      forall i | 0 <= i < n - 1
        ensures BitAt(x / 2, i) == BitAt(y / 2, i)
      {
        HalfBit(x, i);
        HalfBit(y, i);
        assert BitAt(x, i + 1) == BitAt(y, i + 1);
      }
      SameBits(x / 2, y / 2, n - 1);
      HalfBit(x, 0);
      HalfBit(y, 0);
      assert BitAt(x, 0) == BitAt(y, 0);
    }
  }

  lemma {:induction false} BitwiseBits(x: nat, y: nat, n: nat, i: nat)
    requires i < n
    ensures BitAt(XorBits(x, y, n), i) == (BitAt(x, i) + BitAt(y, i)) % 2
    ensures BitAt(AndBits(x, y, n), i) == BitAt(x, i) * BitAt(y, i)
    ensures BitAt(OrBits(x, y, n), i) == BitAt(x, i) + BitAt(y, i) - BitAt(x, i) * BitAt(y, i)
  {
    BitOfDouble(XorBits(x / 2, y / 2, n - 1), Bit(x % 2 != y % 2), i);
    BitOfDouble(AndBits(x / 2, y / 2, n - 1), Bit(x % 2 == 1 && y % 2 == 1), i);
    BitOfDouble(OrBits(x / 2, y / 2, n - 1), Bit(x % 2 == 1 || y % 2 == 1), i);
    HalfBit(x, if i == 0 then 0 else i - 1);
    HalfBit(y, if i == 0 then 0 else i - 1);
    if i > 0 {
      BitwiseBits(x / 2, y / 2, n - 1, i - 1);
    }
    hide BitAt;
  }

  lemma {:induction false} NotBits(x: nat, n: nat, i: nat)
    requires x < Pow2(n) && i < n
    ensures BitAt(Pow2(n) - 1 - x, i) == 1 - BitAt(x, i)
  {
    hide BitAt;
    var y := Pow2(n) - 1 - x;
    assert Pow2(n) == 2 * Pow2(n - 1);
    hide Pow2;
    assert y == 2 * (Pow2(n - 1) - 1 - x / 2) + (1 - x % 2);
    BitOfDouble(Pow2(n - 1) - 1 - x / 2, 1 - x % 2, i);
    HalfBit(x, if i == 0 then 0 else i - 1);
    if i > 0 {
      NotBits(x / 2, n - 1, i - 1);
    }
  }

  /** Xor, and, or, not: each bit of the result is that of the operands' bits at the same place. */
  lemma BitwiseIsBitByBit(x: u32, y: u32, i: nat)
    requires i < 32
    ensures BitAt(Xor(x, y), i) == (BitAt(x, i) + BitAt(y, i)) % 2
    ensures BitAt(And(x, y), i) == BitAt(x, i) * BitAt(y, i)
    ensures BitAt(Or(x, y), i) == BitAt(x, i) + BitAt(y, i) - BitAt(x, i) * BitAt(y, i)
    ensures BitAt(Not(x), i) == 1 - BitAt(x, i)
  {
    hide BitAt;
    BitwiseBits(x, y, 32, i);
    Pow2Of32();
    NotBits(x, 32, i);
  }

  /** One place to the left: the highest bit becomes the lowest, all others move up. */
  lemma RotatedParts(x: u32)
    ensures RotateLeft1(x) == 2 * (x % 0x8000_0000) + x / 0x8000_0000 && x / 0x8000_0000 < 2
  {
  }

  lemma TopBit(x: u32)
    ensures BitAt(x, 31) == x / 0x8000_0000
  {
    Pow2Of31();
    hide Pow2;
  }

  lemma RotateOnce(x: u32, i: nat)
    requires i < 32
    ensures BitAt(RotateLeft1(x), (i + 1) % 32) == BitAt(x, i)
  {
    var t, l := x / 0x8000_0000, x % 0x8000_0000;
    RotatedParts(x);
    Pow2Of31();
    TopBit(x);
    hide BitAt, RotateLeft1, Pow2;
    BitOfLow(x, 31, i);
    if i < 31 {
      BitOfDouble(l, t, i + 1);
    } else {
      BitOfDouble(l, t, 0);
    }
  }

  lemma Pow2Of31()
    ensures Pow2(31) == 0x8000_0000
  {
    Pow2Of32();
    assert Pow2(32) == 2 * Pow2(31);
  }

  /** Rotating to the left by `n` moves bit `i` to bit `i + n`, around the end of the word. */
  lemma {:induction false} RotateLeftBits(x: u32, n: nat, i: nat)
    requires i < 32
    ensures BitAt(RotateLeft(x, n), (i + n) % 32) == BitAt(x, i)
  {
    hide BitAt, RotateLeft1;
    if n > 0 {
      RotateLeftBits(x, n - 1, i);
      RotateOnce(RotateLeft(x, n - 1), (i + n - 1) % 32);
      NextPlace(i + n - 1);
    }
  }

  lemma NextPlace(j: nat)
    ensures (j % 32 + 1) % 32 == (j + 1) % 32
  {
  }

  lemma SameWord(x: u32, y: u32)
    requires forall i :: 0 <= i < 32 ==> BitAt(x, i) == BitAt(y, i)
    ensures x == y
  {
    hide BitAt;
    Pow2Of32();
    SameBits(x, y, 32);
  }

  lemma {:induction false} RotateMore(x: u32, a: nat, b: nat)
    ensures RotateLeft(RotateLeft(x, a), b) == RotateLeft(x, a + b)
  {
    hide RotateLeft1;
    if b > 0 {
      RotateMore(x, a, b - 1);
    }
  }

  lemma FullTurn(x: u32)
    ensures RotateLeft(x, 32) == x
  {
    hide BitAt, RotateLeft;
    forall i | 0 <= i < 32
      ensures BitAt(RotateLeft(x, 32), i) == BitAt(x, i)
    {
      RotateLeftBits(x, 32, i);
      assert (i + 32) % 32 == i;
    }
    SameWord(RotateLeft(x, 32), x);
  }

  /** Rotating to the right undoes rotating to the left, and moves bit `i + n` to bit `i`. */
  lemma RotateRightUndoes(x: u32, n: nat, i: nat)
    requires n <= 32 && i < 32
    ensures RotateRight(RotateLeft(x, n), n) == x && RotateLeft(RotateRight(x, n), n) == x
    ensures BitAt(RotateRight(x, n), i) == BitAt(x, (i + n) % 32)
  {
    hide BitAt, RotateLeft;
    RotateMore(x, n, 32 - n);
    RotateMore(x, 32 - n, n);
    FullTurn(x);
    RotateLeftBits(RotateRight(x, n), n, i);
  }

  /** Byte `k` of a number, the lowest one first. */
  ghost function ByteAt(x: nat, k: nat): nat {
    x / Pow2(8 * k) % 0x100
  }

  lemma Pow2OfBytes()
    ensures Pow2(0) == 1 && Pow2(8) == 0x100 && Pow2(16) == 0x1_0000 && Pow2(24) == 0x100_0000
  {
    assert Pow2(4) == 16 && Pow2(8) == 256 && Pow2(12) == 0x1000 && Pow2(20) == 0x10_0000;
  }

  lemma LowByte(h: nat, d: nat)
    requires d < 0x100
    ensures (0x100 * h + d) / 0x100 == h && (0x100 * h + d) % 0x100 == d
  {
  }

  lemma NextByte(x: nat, k: nat)
    ensures ByteAt(x, 0) == x % 0x100 && ByteAt(x, k + 1) == ByteAt(x / 0x100, k)
  {
    Pow2OfBytes();
    EightMore(8 * k);
    DivideTwice(x, 0x100, Pow2(8 * k));
    assert 8 * (k + 1) == 8 * k + 8;
  }

  lemma EightMore(n: nat)
    ensures Pow2(n + 8) == 0x100 * Pow2(n)
  {
    assert Pow2(n + 2) == 4 * Pow2(n) && Pow2(n + 4) == 4 * Pow2(n + 2);
    assert Pow2(n + 6) == 4 * Pow2(n + 4) && Pow2(n + 8) == 4 * Pow2(n + 6);
  }

  /** The bytes of a word that is put together from four. */
  lemma FourBytes(a: nat, b: nat, c: nat, d: nat)
    requires a < 0x100 && b < 0x100 && c < 0x100 && d < 0x100
    ensures var x := 0x100 * (0x100 * (0x100 * a + b) + c) + d;
            ByteAt(x, 0) == d && ByteAt(x, 1) == c && ByteAt(x, 2) == b && ByteAt(x, 3) == a
  {
    hide ByteAt;
    var ab, abc := 0x100 * a + b, 0x100 * (0x100 * a + b) + c;
    LowByte(abc, d);
    LowByte(ab, c);
    LowByte(a, b);
    NextByte(0x100 * abc + d, 0);
    NextByte(0x100 * abc + d, 1);
    NextByte(0x100 * abc + d, 2);
    NextByte(abc, 0);
    NextByte(abc, 1);
    NextByte(ab, 0);
    NextByte(a, 0);
  }

  lemma SwappedParts(x: u32)
    ensures var a, b, c, d := x / 0x100_0000, x / 0x1_0000 % 0x100, x / 0x100 % 0x100, x % 0x100;
            SwapBytes(x) == 0x100 * (0x100 * (0x100 * d + c) + b) + a
  {
  }

  lemma BytesAre(x: u32)
    ensures ByteAt(x, 0) == x % 0x100 && ByteAt(x, 1) == x / 0x100 % 0x100
    ensures ByteAt(x, 2) == x / 0x1_0000 % 0x100 && ByteAt(x, 3) == x / 0x100_0000 < 0x100
  {
    Pow2OfBytes();
  }

  /** Swapping bytes moves byte `k` to byte `3 - k`. */
  lemma SwapBytesBytes(x: u32, k: nat)
    requires k < 4
    ensures ByteAt(SwapBytes(x), 3 - k) == ByteAt(x, k)
  {
    hide ByteAt, SwapBytes;
    var a, b, c, d := x / 0x100_0000, x / 0x1_0000 % 0x100, x / 0x100 % 0x100, x % 0x100;
    BytesAre(x);
    SwappedParts(x);
    FourBytes(d, c, b, a);
  }

  lemma {:induction false} BitLengthIs(x: nat, n: nat)
    ensures BitLength(x) == n <==> x < Pow2(n) && (n > 0 ==> x >= Pow2(n - 1))
  {
    if x > 0 && n > 0 {
      BitLengthIs(x / 2, n - 1);
    }
  }

  /** A word has `z` leading zeros if and only if it fits into the other bits and fills the highest of them. */
  lemma LeadingZerosIs(x: u32, z: nat)
    requires z <= 32
    ensures LeadingZeros(x) == z <==> x < Pow2(32 - z) && (z < 32 ==> x >= Pow2(31 - z))
  {
    hide BitLength;
    BitLengthIs(x, 32 - z);
  }

  ghost function Ones(x: nat, n: nat): set<nat> {
    set i: nat | i < n && BitAt(x, i) == 1
  }

  lemma {:induction false} CountTop(x: nat, n: nat)
    requires n > 0
    ensures CountBits(x, n) == CountBits(x, n - 1) + BitAt(x, n - 1)
  {
    if n == 1 {
      HalfBit(x, 0);
      assert CountBits(x, 1) == CountBits(x / 2, 0) + x % 2;
    } else {
      CountTop(x / 2, n - 1);
      HalfBit(x, n - 2);
    }
  }

  lemma {:induction false} CountBitsIs(x: nat, n: nat)
    ensures CountBits(x, n) == |Ones(x, n)|
  {
    if n == 0 {
      assert Ones(x, 0) == {};
    } else {
      CountTop(x, n);
      CountBitsIs(x, n - 1);
      hide BitAt, CountBits;
      assert Ones(x, n) == Ones(x, n - 1) + if BitAt(x, n - 1) == 1 then {n - 1} else {};
    }
  }

  /** The count of ones is the number of bits that are set. */
  lemma CountOnesIs(x: u32)
    ensures CountOnes(x) == |set i: nat | i < 32 && BitAt(x, i) == 1|
  {
    CountBitsIs(x, 32);
  }

  /** Sums and products of words wrap, and low and high words together are the whole product. */
  lemma WordArithmetic(x: u32, y: u32)
    ensures Add(x, y) == if x + y < TWO_32 then x + y else x + y - TWO_32
    ensures MulHigh(x, y) * TWO_32 + Mul(x, y) == x * y
  {
  }
}
