/**
 * The step mappings of Keccak bit by bit, as section 3.2 of FIPS 202 states them, for lanes of 32 bits: column x,
 * row y and place z of a bit, with sums modulo two instead of operations on words.
 */
module KeccakBits {
  import opened Numerals
  import opened Arithmetic
  import opened Words
  import opened WordBits
  import opened EthashNodes
  import opened KeccakF800

  /** Bit z of the lane at column x and row y. */
  ghost function LaneBit(a: Sponge, x: nat, y: nat, z: nat): nat
    requires x < 5 && y < 5
  {
    BitAt(a[5 * y + x], z)
  }

  /** The number of ones in a column. */
  ghost function ColumnSum(a: Sponge, x: nat, z: nat): nat
    requires x < 5
  {
    LaneBit(a, x, 0, z) + LaneBit(a, x, 1, z) + LaneBit(a, x, 2, z) + LaneBit(a, x, 3, z) + LaneBit(a, x, 4, z)
  }

  lemma ColumnBit(a: Sponge, x: nat, z: nat)
    requires x < 5 && z < 32
    ensures BitAt(Column(a, x), z) == ColumnSum(a, x, z) % 2
  {
    hide BitAt, Xor;
    var c1 := Xor(a[x], a[x + 5]);
    var c2 := Xor(c1, a[x + 10]);
    var c3 := Xor(c2, a[x + 15]);
    BitwiseIsBitByBit(a[x], a[x + 5], z);
    BitwiseIsBitByBit(c1, a[x + 10], z);
    BitwiseIsBitByBit(c2, a[x + 15], z);
    BitwiseIsBitByBit(c3, a[x + 20], z);
  }

  /** Theta adds to each bit the columns to its left and, one place lower, to its right. */
  lemma ThetaBits(a: Sponge, x: nat, y: nat, z: nat)
    requires x < 5 && y < 5 && z < 32
    ensures LaneBit(Theta(a), x, y, z) ==
            (LaneBit(a, x, y, z) + ColumnSum(a, (x + 4) % 5, z) + ColumnSum(a, (x + 1) % 5, (z + 31) % 32)) % 2
  {
    hide BitAt, Xor, Column, RotateLeft, ColumnSum, Theta;
    var left, right := Column(a, (x + 4) % 5), Column(a, (x + 1) % 5);
    ThetaAt(a, x, y);
    BitwiseIsBitByBit(a[5 * y + x], ThetaWord(a, x), z);
    BitwiseIsBitByBit(left, RotateLeft(right, 1), z);
    ColumnBit(a, (x + 4) % 5, z);
    ColumnBit(a, (x + 1) % 5, (z + 31) % 32);
    RotateLeftBits(right, 1, (z + 31) % 32);
    assert ((z + 31) % 32 + 1) % 32 == z;
  }

  /**
   * Rho leaves the lane at the origin, and moves the bits of the lane at step t of the walk
   * (1, 0), ..., (x, y), (y, 2x + 3y), ... by (t + 1)(t + 2)/2 places. The walk visits every other lane.
   */
  lemma RhoBits(a: Sponge, x: nat, y: nat, z: nat) returns (t: nat)
    requires x < 5 && y < 5 && z < 32 && (x, y) != (0, 0)
    ensures Rho(a)[0] == a[0]
    ensures t < 24 && WalkLane(t) == 5 * y + x
    ensures LaneBit(Rho(a), x, y, (z + (t + 1) * (t + 2) / 2) % 32) == LaneBit(a, x, y, z)
  {
    hide BitAt, RotateLeft, StepOf, WalkLane;
    var k := 5 * y + x;
    t := StepOf(k);
    StepOfVisits(k);
    WalkOffsetTriangular(t);
    var w := WalkOffset(t);
    assert w == (t + 1) * (t + 2) / 2;
    RotateLeftBits(a[k], w % 32, z);
    SameRemainder(z, w);
  }

  lemma SameRemainder(z: nat, w: nat)
    ensures (z + w % 32) % 32 == (z + w) % 32
  {
  }

  /** The walk as the standard defines it. */
  lemma WalkIs(t: nat, x: nat, y: nat)
    requires x < 5 && y < 5 && WalkLane(t) == 5 * y + x
    ensures WalkLane(0) == 1 && WalkLane(t + 1) == 5 * ((2 * x + 3 * y) % 5) + y
  {
    LaneParts(x, y);
  }

  /** Pi moves the lane at (x, y) to (y, 2x + 3y). */
  lemma PiLanes(a: Sponge, x: nat, y: nat)
    requires x < 5 && y < 5
    ensures Pi(a)[5 * ((2 * x + 3 * y) % 5) + y] == a[5 * y + x]
  {
    LaneParts(x, y);
    PiUndoesTheWalk(5 * y + x);
    assert NextLane(5 * y + x) == 5 * ((2 * x + 3 * y) % 5) + y;
    hide NextLane, PiSource;
  }

  /** Chi adds to each bit the product of the next one's complement and the one after that in its row. */
  lemma ChiBits(a: Sponge, x: nat, y: nat, z: nat)
    requires x < 5 && y < 5 && z < 32
    ensures LaneBit(Chi(a), x, y, z) ==
            (LaneBit(a, x, y, z) + (1 - LaneBit(a, (x + 1) % 5, y, z)) * LaneBit(a, (x + 2) % 5, y, z)) % 2
  {
    hide BitAt, Xor, And, Not, Chi;
    var b, c, d := a[5 * y + x], a[5 * y + (x + 1) % 5], a[5 * y + (x + 2) % 5];
    ChiAt(a, x, y);
    BitwiseIsBitByBit(c, c, z);
    BitwiseIsBitByBit(Not(c), d, z);
    BitwiseIsBitByBit(b, And(Not(c), d), z);
  }

  /** Iota adds the round constant to the lane at the origin, and leaves all others. */
  lemma IotaBits(a: Sponge, r: nat, x: nat, y: nat, z: nat)
    requires x < 5 && y < 5 && z < 32 && r < |RNDC|
    ensures LaneBit(Iota(a, r), x, y, z) ==
            if (x, y) == (0, 0) then (LaneBit(a, 0, 0, z) + BitAt(RNDC[r], z)) % 2 else LaneBit(a, x, y, z)
  {
    hide BitAt, Xor;
    BitwiseIsBitByBit(a[0], RNDC[r], z);
  }

  /** The permutation is 22 rounds, each of them the five mappings in this order with the constant of its number. */
  lemma {:induction false} PermutationIs(a: Sponge, states: seq<Sponge>)
    requires |states| == 23 && states[0] == a
    requires forall r :: 0 <= r < 22 ==> states[r + 1] == Iota(Chi(Pi(Rho(Theta(states[r])))), r)
    ensures Permute(a, ROUNDS) == states[22]
  {
    hide Iota, Chi, Pi, Rho, Theta;
    var n := 0;
    while n < 22
      invariant n <= 22 && Permute(a, n) == states[n]
    {
      assert states[n + 1] == RoundOf(states[n], n);
      n := n + 1;
    }
  }

  /** What is absorbed: eight words of header, the nonce with its low word first, eight more words, and zeros. */
  lemma AbsorbedIs(header: H256, nonce: u64, input: H256, k: nat)
    requires k < 25
    ensures Absorbed(header, nonce, input)[k] ==
            if k < 8 then header[k]
            else if k == 8 then nonce % 0x1_0000_0000
            else if k == 9 then nonce / 0x1_0000_0000
            else if k < 18 then input[k - 10]
            else 0
  {
  }

  /** The short hash has the first eight bytes of the sponge, in their order, as its bytes from the highest down. */
  lemma ShortHashBytes(header: H256, nonce: u64, input: H256, k: nat)
    requires k < 8
    ensures var st := Permute(Absorbed(header, nonce, input), 22);
            ByteAt(ShortHash(header, nonce, input), 7 - k) == ByteAt(st[k / 4], k % 4)
  {
    hide SwapBytes, ByteAt, Permute, Absorbed;
    var st := Permute(Absorbed(header, nonce, input), 22);
    var hi, lo := SwapBytes(st[0]), SwapBytes(st[1]);
    SwapBytesBytes(st[k / 4], k % 4);
    HighBytes(hi, lo, 7 - k);
  }

  lemma HighBytes(hi: u32, lo: u32, k: nat)
    ensures ByteAt(hi * TWO_32 + lo, k) == if k < 4 then ByteAt(lo, k) else ByteAt(hi, k - 4)
  {
    Pow2Of32();
    Stacked(hi, lo, 4, k);
  }

  /** A number above `m` lower bytes. */
  lemma {:induction false} Stacked(hi: nat, lo: nat, m: nat, k: nat)
    requires lo < Pow2(8 * m)
    ensures ByteAt(hi * Pow2(8 * m) + lo, k) == if k < m then ByteAt(lo, k) else ByteAt(hi, k - m)
  {
    hide ByteAt;
    if m > 0 {
      var p := Pow2(8 * (m - 1));
      EightMore(8 * (m - 1));
      assert 8 * (m - 1) + 8 == 8 * m;
      hide Pow2;
      var rest := hi * p + lo / 0x100;
      assert hi * Pow2(8 * m) + lo == 0x100 * rest + lo % 0x100;
      LowByte(rest, lo % 0x100);
      NextByte(0x100 * rest + lo % 0x100, if k == 0 then 0 else k - 1);
      NextByte(lo, if k == 0 then 0 else k - 1);
      if k > 0 {
        Stacked(hi, lo / 0x100, m - 1, k - 1);
      }
    }
  }

  /** The long hash is the first eight words of the sponge. */
  lemma LongHashIs(header: H256, nonce: u64, input: H256, k: nat)
    requires k < 8
    ensures LongHash(header, nonce, input)[k] == Permute(Absorbed(header, nonce, input), 22)[k]
  {
    hide Permute, Absorbed;
  }
}
