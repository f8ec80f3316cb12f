/**
 * ProgPoW as EIP-1057 states it: the laws of its merging and its random math for all operands, the generator in
 * numbers and bits, and the program of a period by the place of every instruction and every number drawn.
 */
module ProgpowStandard {
  import opened Numerals
  import opened Arithmetic
  import opened Words
  import opened WordBits
  import opened EthashNodes
  import opened EthashSizes
  import opened Hashimoto
  import opened KeccakF800
  import opened ProgpowPlan
  import opened ProgpowProgram
  import opened Progpow

  // Random math.

  /** Sum, both halves of the product, and the smaller operand. */
  lemma MathNumbers(a: u32, b: u32, r: u32)
    ensures r % 11 == 0 ==> Math(a, b, r) == (a + b) % 0x1_0000_0000
    ensures r % 11 == 1 ==> Math(a, b, r) == a * b % 0x1_0000_0000
    ensures r % 11 == 2 ==> Math(a, b, r) == a * b / 0x1_0000_0000
    ensures r % 11 == 3 ==> Math(a, b, r) <= a && Math(a, b, r) <= b && (Math(a, b, r) == a || Math(a, b, r) == b)
  {
    hide RotateLeft, And, Or, Xor, LeadingZeros, CountOnes;
  }

  /** The two rotations, by the low five bits of the second operand, and the three bitwise operations. */
  lemma MathBits(a: u32, b: u32, r: u32, i: nat)
    requires i < 32
    ensures r % 11 == 4 ==> BitAt(Math(a, b, r), (i + b % 32) % 32) == BitAt(a, i)
    ensures r % 11 == 5 ==> BitAt(Math(a, b, r), i) == BitAt(a, (i + b % 32) % 32)
    ensures r % 11 == 6 ==> BitAt(Math(a, b, r), i) == BitAt(a, i) * BitAt(b, i)
    ensures r % 11 == 7 ==> BitAt(Math(a, b, r), i) == BitAt(a, i) + BitAt(b, i) - BitAt(a, i) * BitAt(b, i)
    ensures r % 11 == 8 ==> BitAt(Math(a, b, r), i) == (BitAt(a, i) + BitAt(b, i)) % 2
  {
    hide BitAt, RotateLeft, RotateRight, And, Or, Xor, LeadingZeros, CountOnes, MulHigh, Mul;
    BitwiseIsBitByBit(a, b, i);
    RotateLeftBits(a, b % 32, i);
    RotateRightUndoes(a, b % 32, i);
  }

  /** Leading zeros and ones of both operands together. */
  lemma MathCounts(a: u32, b: u32, r: u32, y: nat, z: nat)
    requires y <= 32 && z <= 32 && a < Pow2(32 - y) && b < Pow2(32 - z)
    requires (y < 32 ==> a >= Pow2(31 - y)) && (z < 32 ==> b >= Pow2(31 - z))
    ensures r % 11 == 9 ==> Math(a, b, r) == y + z
    ensures r % 11 == 10 ==>
              Math(a, b, r) == |set i: nat | i < 32 && BitAt(a, i) == 1| + |set i: nat | i < 32 && BitAt(b, i) == 1|
  {
    hide BitAt, RotateLeft, RotateRight, And, Or, Xor, LeadingZeros, CountOnes, MulHigh, Mul;
    LeadingZerosIs(a, y);
    LeadingZerosIs(b, z);
    CountOnesIs(a);
    CountOnesIs(b);
  }

  // Merging.

  /** The two merges by multiplication, and the two by rotation to the left and to the right. */
  lemma MergeIs(a: u32, b: u32, r: u32, i: nat)
    requires i < 32
    ensures r % 4 == 0 ==> Merge(a, b, r) == (33 * a + b) % 0x1_0000_0000
    ensures r % 4 == 1 ==> Merge(a, b, r) == 33 * Xor(a, b) % 0x1_0000_0000
    ensures var n := r / 0x1_0000 % 31 + 1;
            && (r % 4 == 2 ==> BitAt(Merge(a, b, r), (i + n) % 32) == (BitAt(a, i) + BitAt(b, (i + n) % 32)) % 2)
            && (r % 4 == 3 ==> BitAt(Merge(a, b, r), i) == (BitAt(a, (i + n) % 32) + BitAt(b, i)) % 2)
  {
    hide BitAt, RotateLeft, RotateRight, Xor;
    var n := r / 0x1_0000 % 31 + 1;
    RotateLeftBits(a, n, i);
    RotateRightUndoes(a, n, i);
    BitwiseIsBitByBit(RotateLeft(a, n), b, (i + n) % 32);
    BitwiseIsBitByBit(RotateRight(a, n), b, i);
  }

  lemma XorUndone(a: u32, b: u32)
    ensures Xor(Xor(a, b), b) == a
  {
    Pow2Of32();
    XorTwice(a, b, 32);
  }

  /** Modulo 2^32, the factor 33 is undone by 0x3e0f83e1. */
  lemma TimesThirtyThree(a: u32)
    ensures Mul(Mul(a, 33), 0x3e0f83e1) == a
  {
    var q := 33 * a / TWO_32;
    assert Mul(a, 33) == 33 * a - q * TWO_32;
    assert 33 * 0x3e0f83e1 == 8 * TWO_32 + 1;
    var k := 8 * a - q * 0x3e0f83e1;
    assert Mul(a, 33) * 0x3e0f83e1 == a + k * TWO_32;
    WholeWords(a, k);
  }

  lemma WholeWords(a: u32, k: int)
    ensures (a + k * TWO_32) % TWO_32 == a
  {
  }

  lemma SumUndone(a: u32, c: u32, b: u32)
    requires Add(a, b) == Add(c, b)
    ensures a == c
  {
  }

  /** Merging keeps what a register knows: for given data and draw, different values stay different. */
  lemma MergeKeepsEntropy(a: u32, c: u32, b: u32, r: u32)
    requires Merge(a, b, r) == Merge(c, b, r)
    ensures a == c
  {
    hide RotateLeft, RotateRight, Xor, Mul, Add;
    var n := r / 0x1_0000 % 31 + 1;
    XorUndone(a, b);
    XorUndone(c, b);
    TimesThirtyThree(a);
    TimesThirtyThree(c);
    TimesThirtyThree(Xor(a, b));
    TimesThirtyThree(Xor(c, b));
    RotateRightUndoes(a, n, 0);
    RotateRightUndoes(c, n, 0);
    XorUndone(RotateLeft(a, n), b);
    XorUndone(RotateLeft(c, n), b);
    XorUndone(RotateRight(a, n), b);
    XorUndone(RotateRight(c, n), b);
    if r % 4 == 0 {
      SumUndone(Mul(a, 33), Mul(c, 33), b);
    }
  }

  // The generator.

  /** Two multiply-with-carry generators that never wrap, and a linear congruential one. */
  lemma KissNumbers(k: Kiss)
    ensures NextKiss(k).z == 36969 * (k.z % 0x1_0000) + k.z / 0x1_0000
    ensures NextKiss(k).w == 18000 * (k.w % 0x1_0000) + k.w / 0x1_0000
    ensures NextKiss(k).jcong == (69069 * k.jcong + 1234567) % 0x1_0000_0000
  {
    CarryFits(36969, k.z);
    CarryFits(18000, k.w);
    CongruentialIs(k.jcong);
    hide ShiftedXors, Add, Mul;
  }

  lemma CongruentialIs(j: u32)
    ensures Add(Mul(69069, j), 1234567) == (69069 * j + 1234567) % 0x1_0000_0000
  {
    SumOfWrapped(69069 * j, 1234567);
  }

  lemma CarryFits(f: nat, z: u32)
    requires f <= 36969
    ensures Add(Mul(f, z % 0x1_0000), z / 0x1_0000) == f * (z % 0x1_0000) + z / 0x1_0000
  {
    var l := z % 0x1_0000;
    MulMono(f, 36969, l);
  }

  lemma ShiftedUp(x: u32, n: nat, i: nat)
    requires i < 32 && n <= 32
    ensures BitAt(x * Pow2(n) % TWO_32, i) == if i < n then 0 else BitAt(x, i - n)
  {
    Pow2Of32();
    hide BitAt, Pow2;
    BitOfLow(x * Pow2(n), 32, i);
    BitOfShifted(x, n, i);
  }

  lemma {:induction false} BitOfShifted(x: nat, n: nat, i: nat)
    ensures BitAt(x * Pow2(n), i) == if i < n then 0 else BitAt(x, i - n)
  {
    hide BitAt;
    if n > 0 {
      assert x * Pow2(n) == 2 * (x * Pow2(n - 1)) + 0;
      BitOfDouble(x * Pow2(n - 1), 0, i);
      if i > 0 {
        BitOfShifted(x, n - 1, i - 1);
      }
    }
  }

  lemma {:induction false} BitOfShiftedDown(x: nat, n: nat, y: nat, i: nat)
    requires y == x / Pow2(n)
    ensures BitAt(y, i) == BitAt(x, i + n)
  {
    hide BitAt;
    if n > 0 {
      DivideTwice(x, 2, Pow2(n - 1));
      BitOfShiftedDown(x / 2, n - 1, y, i);
      HalfBit(x, i + n - 1);
    }
  }

  lemma {:induction false} HighBitsZero(x: nat, n: nat, i: nat)
    requires x < Pow2(n) && i >= n
    ensures BitAt(x, i) == 0
  {
    if i > 0 {
      HalfBit(x, i - 1);
      HighBitsZero(x / 2, if n == 0 then 0 else n - 1, i - 1);
    }
  }

  lemma Pow2OfShifts()
    ensures Pow2(5) == 0x20 && Pow2(13) == 0x2000 && Pow2(17) == 0x2_0000
  {
    assert Pow2(3) == 8 && Pow2(8) == 0x100 && Pow2(10) == 0x400 && Pow2(15) == 0x8000;
  }

  ghost function BitOrZero(x: nat, i: int): nat {
    if 0 <= i < 32 then BitAt(x, i) else 0
  }

  /** The word `y` is `x` xored with `x` shifted up by `n` places. */
  ghost predicate XorShift(x: nat, y: nat, n: int) {
    forall i: nat :: i < 32 ==> BitAt(y, i) == (BitAt(x, i) + BitOrZero(x, i - n)) % 2
  }

  /** The third generator xors its state with itself shifted 17 places up, 13 down and 5 up, one after the other. */
  lemma KissShifts(k: Kiss) returns (j1: u32, j2: u32)
    ensures XorShift(k.jsr, j1, 17) && XorShift(j1, j2, -13) && XorShift(j2, NextKiss(k).jsr, 5)
  {
    hide Xor, XorShift;
    Pow2OfShifts();
    var j := k.jsr;
    j1 := Xor(j, j * 0x2_0000 % TWO_32);
    j2 := Xor(j1, j1 / 0x2000);
    XoredUp(j, 17, j * 0x2_0000 % TWO_32);
    XoredDown(j1, 13, j1 / 0x2000);
    XoredUp(j2, 5, j2 * 0x20 % TWO_32);
  }

  lemma XoredUp(x: u32, n: nat, y: u32)
    requires n <= 32 && y == x * Pow2(n) % TWO_32
    ensures XorShift(x, Xor(x, y), n)
  {
    hide BitAt, Xor, Pow2;
    forall i: nat | i < 32
      ensures BitAt(Xor(x, y), i) == (BitAt(x, i) + BitOrZero(x, i - n)) % 2
    {
      BitwiseIsBitByBit(x, y, i);
      ShiftedUp(x, n, i);
    }
  }

  lemma XoredDown(x: u32, n: nat, y: u32)
    requires n <= 32 && y == x / Pow2(n)
    ensures XorShift(x, Xor(x, y), 0 - n)
  {
    Pow2Of32();
    hide BitAt, Xor, Pow2;
    forall i: nat | i < 32
      ensures BitAt(Xor(x, y), i) == (BitAt(x, i) + BitOrZero(x, i + n)) % 2
    {
      BitwiseIsBitByBit(x, y, i);
      BitOfShiftedDown(x, n, y, i);
      if i + n >= 32 {
        HighBitsZero(x, 32, i + n);
      }
    }
  }

  /** The number drawn: both carry generators side by side, xored with the second and added to the third. */
  lemma OutputIs(k: Kiss)
    ensures Output(k) == (Xor((k.z * 0x1_0000 + k.w) % 0x1_0000_0000, k.jcong) + k.jsr) % 0x1_0000_0000
  {
    hide Xor;
    SumOfWrapped(k.z * 0x1_0000, k.w);
  }

  lemma SumOfWrapped(x: nat, y: nat)
    ensures (x % TWO_32 + y) % TWO_32 == (x + y) % TWO_32
  {
  }

  /** FNV-1a: xor first, then the product with the prime. */
  lemma Fnv1aIs(h: u32, d: u32)
    ensures Fnv1a(h, d) == Xor(h, d) * 0x01000193 % 0x1_0000_0000
  {
    hide Xor;
  }

  // The shuffles.

  /** The shuffles go from the last place down, swapping it with one drawn up to it, first destinations then sources. */
  ghost predicate ShuffleSteps(seed: u64, plans: seq<Plan>)
    requires |plans| == 32 && forall i :: 0 <= i < 32 ==> |plans[i].dst| == 32 && |plans[i].src| == 32
  {
    && (forall k :: 0 <= k < 32 ==> plans[31].dst[k] == k && plans[31].src[k] == k)
    && forall i :: 1 <= i < 32 ==>
         var p, q := plans[i], plans[i - 1];
         var k1, k2 := NextKiss(p.rnd), NextKiss(NextKiss(p.rnd));
         var d, s := Output(k1) % (i + 1), Output(k2) % (i + 1);
         && q.rnd == k2
         && q.dst == p.dst[i := p.dst[d]][d := p.dst[i]]
         && q.src == p.src[i := p.src[s]][s := p.src[i]]
  }

  lemma {:induction false} ShufflesReach(seed: u64, plans: seq<Plan>, i: nat)
    requires |plans| == 32 && forall k :: 0 <= k < 32 ==> |plans[k].dst| == 32 && |plans[k].src| == 32
    requires plans[31].rnd == Seeded(seed) && ShuffleSteps(seed, plans) && i < 32
    ensures plans[i] == Turned(Plan(Seeded(seed), Identity(), Identity()), i)
    decreases 32 - i
  {
    hide NextKiss, Output, Seeded;
    if i == 31 {
      assert plans[31].dst == Identity() && plans[31].src == Identity();
    } else {
      ShufflesReach(seed, plans, i + 1);
      assert plans[(i + 1) - 1] == plans[i];
    }
  }

  /** The plan of a period, from a generator seeded with FNV-1a of the words of its number, low, high, low, high. */
  lemma PlanIs(seed: u64, plans: seq<Plan>, z: u32, w: u32, jsr: u32, jcong: u32)
    requires |plans| == 32 && forall k :: 0 <= k < 32 ==> |plans[k].dst| == 32 && |plans[k].src| == 32
    requires var lo, hi := seed % 0x1_0000_0000, seed / 0x1_0000_0000;
             && z == Fnv1a(0x811c9dc5, lo) && w == Fnv1a(z, hi) && jsr == Fnv1a(w, lo) && jcong == Fnv1a(jsr, hi)
    requires plans[31].rnd == Kiss(z, w, jsr, jcong) && ShuffleSteps(seed, plans)
    ensures PlanOf(seed) == plans[0]
  {
    hide Fnv1a, Turned, ShuffleSteps;
    ShufflesReach(seed, plans, 0);
  }

  /** The registers a lane starts with: 32 draws of a generator seeded with seed and lane number. */
  lemma FilledIs(seed: u64, lane: u32, z: u32, w: u32, jsr: u32, jcong: u32, states: seq<Kiss>, i: nat)
    requires |states| == 33 && i < 32
    requires z == Fnv1a(0x811c9dc5, seed % 0x1_0000_0000) && w == Fnv1a(z, seed / 0x1_0000_0000)
    requires jsr == Fnv1a(w, lane) && jcong == Fnv1a(jsr, lane) && states[0] == Kiss(z, w, jsr, jcong)
    requires forall k :: 0 <= k < 32 ==> states[k + 1] == NextKiss(states[k])
    ensures Filled(seed, lane)[i] == Output(states[i + 1])
  {
    hide Fnv1a, NextKiss, Output;
    assert states[0] == LaneKiss(seed, lane);
    Drawn(states[0], states, i + 1);
  }

  lemma {:induction false} Drawn(k: Kiss, states: seq<Kiss>, n: nat)
    requires n < |states| && states[0] == k
    requires forall j :: 0 <= j < |states| - 1 ==> states[j + 1] == NextKiss(states[j])
    ensures KissAfter(k, n) == states[n]
  {
    hide NextKiss;
    if n > 0 {
      Drawn(k, states, n - 1);
      assert states[(n - 1) + 1] == NextKiss(states[n - 1]);
    }
  }

  // The program.

  /** Every ordered pair of different registers is drawn by exactly one of the 992 remainders. */
  lemma SourcesAreEveryPair(x: u32, src1: nat, src2: nat)
    requires src1 < 32 && src2 < 32 && src1 != src2
    ensures Sources(x) == (src1, src2) <==> x % 992 == src1 + 32 * (if src2 > src1 then src2 - 1 else src2)
  {
    var s := x % 992;
    var m := if src2 > src1 then src2 - 1 else src2;
    assert s == s % 32 + 32 * (s / 32);
    if s == src1 + 32 * m {
      assert s % 32 == src1 && s / 32 == m;
    }
  }

  /** Draw number `n` after the shuffles. */
  ghost function DrawAt(p: Plan, n: nat): u32 {
    Output(KissAfter(p.rnd, n))
  }

  lemma {:induction false} TurnsAre(p: Plan, i: nat, k: nat)
    requires |p.dst| == 32 && |p.src| == 32 && i <= 11 && k < i
    ensures var e := Turns(p, i);
            && |e.code| == 2 * i && e.rnd == KissAfter(p.rnd, 4 * i)
            && e.code[2 * k] == CacheRead(p.src[k], p.dst[2 * k], DrawAt(p, 4 * k + 1))
            && e.code[2 * k + 1] == Compute(Sources(DrawAt(p, 4 * k + 2)).0, Sources(DrawAt(p, 4 * k + 2)).1,
                                            DrawAt(p, 4 * k + 3), p.dst[2 * k + 1], DrawAt(p, 4 * k + 4))
  {
    hide NextKiss, Output, Sources;
    CacheTurnIs(p, i - 1);
    if k < i - 1 {
      TurnsAre(p, i - 1, k);
    }
  }

  lemma {:induction false} CacheTurnIs(p: Plan, i: nat)
    requires |p.dst| == 32 && |p.src| == 32 && i < 11
    ensures var e, e' := Turns(p, i), Turns(p, i + 1);
            && |e.code| == 2 * i && e.rnd == KissAfter(p.rnd, 4 * i) && e'.rnd == KissAfter(p.rnd, 4 * i + 4)
            && e'.code == e.code + [
                 CacheRead(p.src[i], p.dst[2 * i], DrawAt(p, 4 * i + 1)),
                 Compute(Sources(DrawAt(p, 4 * i + 2)).0, Sources(DrawAt(p, 4 * i + 2)).1,
                         DrawAt(p, 4 * i + 3), p.dst[2 * i + 1], DrawAt(p, 4 * i + 4))]
  {
    hide NextKiss, Output, Sources;
    if i > 0 {
      CacheTurnIs(p, i - 1);
    }
    FourDraws(p.rnd, 4 * i);
  }

  lemma FourDraws(k: Kiss, n: nat)
    ensures KissAfter(k, n + 1) == NextKiss(KissAfter(k, n)) && KissAfter(k, n + 2) == NextKiss(KissAfter(k, n + 1))
    ensures KissAfter(k, n + 3) == NextKiss(KissAfter(k, n + 2)) && KissAfter(k, n + 4) == NextKiss(KissAfter(k, n + 3))
  {
    hide NextKiss;
  }

  lemma {:induction false} MathTurnIs(p: Plan, i: nat)
    requires |p.dst| == 32 && |p.src| == 32 && 11 <= i < 18
    ensures var e, e', d := Turns(p, i), Turns(p, i + 1), 3 * i + 11;
            && |e.code| == 11 + i && e.rnd == KissAfter(p.rnd, d) && e'.rnd == KissAfter(p.rnd, d + 3)
            && e'.code == e.code + [
                 Compute(Sources(DrawAt(p, d + 1)).0, Sources(DrawAt(p, d + 1)).1,
                         DrawAt(p, d + 2), p.dst[11 + i], DrawAt(p, d + 3))]
  {
    hide NextKiss, Output, Sources;
    if i > 11 {
      MathTurnIs(p, i - 1);
    } else {
      CacheTurnIs(p, 10);
    }
    FourDraws(p.rnd, 3 * i + 11);
  }

  lemma LoadIs(p: Plan, n: nat)
    requires |p.dst| == 32 && |p.src| == 32 && n < 4
    ensures var e, e' := Loads(p, n), Loads(p, n + 1);
            && |e.code| == 29 + n && e.rnd == KissAfter(p.rnd, 65 + n) && e'.rnd == KissAfter(p.rnd, 66 + n)
            && e'.code == e.code + [DagRead(n, if n == 0 then 0 else p.dst[28 + n], DrawAt(p, 66 + n))]
  {
    hide NextKiss, Output, Sources, Turns;
    if n > 0 {
      LoadIs(p, n - 1);
    } else {
      MathTurnIs(p, 17);
    }
    FourDraws(p.rnd, 65 + n);
  }

  /**
   * The program: eleven cached reads, each followed by random math; seven more of random math; and four loads, the
   * first into register zero. Every instruction takes the next numbers drawn, sources before operation before merge.
   */
  lemma ProgramIs(p: Plan, k: nat)
    requires |p.dst| == 32 && |p.src| == 32 && k < 33
    ensures var code := Program(p);
            && |code| == 33
            && (k < 22 && k % 2 == 0 ==> code[k] == CacheRead(p.src[k / 2], p.dst[k], DrawAt(p, 2 * k + 1)))
            && (k < 22 && k % 2 == 1 ==>
                  code[k] == Compute(Sources(DrawAt(p, 2 * k)).0, Sources(DrawAt(p, 2 * k)).1,
                                     DrawAt(p, 2 * k + 1), p.dst[k], DrawAt(p, 2 * k + 2)))
            && (22 <= k < 29 ==>
                  code[k] == Compute(Sources(DrawAt(p, 3 * k - 21)).0, Sources(DrawAt(p, 3 * k - 21)).1,
                                     DrawAt(p, 3 * k - 20), p.dst[k], DrawAt(p, 3 * k - 19)))
            && (29 <= k ==> code[k] == DagRead(k - 29, if k == 29 then 0 else p.dst[k - 1], DrawAt(p, k + 37)))
  {
    hide NextKiss, Output, Sources, DrawAt, Turns, Loads;
    LoadIs(p, 0);
    LoadIs(p, 1);
    LoadIs(p, 2);
    LoadIs(p, 3);
    MathsAre(p, 18, k);
    LoadsStart(p);
  }

  lemma LoadsStart(p: Plan)
    requires |p.dst| == 32 && |p.src| == 32
    ensures Loads(p, 0) == Turns(p, 18)
  {
  }

  lemma {:induction false} MathsAre(p: Plan, i: nat, k: nat)
    requires |p.dst| == 32 && |p.src| == 32 && 11 <= i <= 18
    ensures var code := Turns(p, i).code;
            && |code| == 11 + i
            && (k < 22 && k % 2 == 0 ==> code[k] == CacheRead(p.src[k / 2], p.dst[k], DrawAt(p, 2 * k + 1)))
            && (k < 22 && k % 2 == 1 ==>
                  code[k] == Compute(Sources(DrawAt(p, 2 * k)).0, Sources(DrawAt(p, 2 * k)).1,
                                     DrawAt(p, 2 * k + 1), p.dst[k], DrawAt(p, 2 * k + 2)))
            && (22 <= k < 11 + i ==>
                  code[k] == Compute(Sources(DrawAt(p, 3 * k - 21)).0, Sources(DrawAt(p, 3 * k - 21)).1,
                                     DrawAt(p, 3 * k - 20), p.dst[k], DrawAt(p, 3 * k - 19)))
  {
    hide NextKiss, Output, Sources, DrawAt, Turns;
    if i == 11 {
      CacheTurnIs(p, 10);
      if k < 22 {
        TurnsAre(p, 11, k / 2);
      }
    } else {
      MathsAre(p, i - 1, k);
      MathTurnIs(p, i - 1);
    }
  }

  /** An instruction changes its destination only, by merging in what it read or computed. */
  lemma ExecIs(i: Instr, regs: Regs, cdag: CDag, load: seq<u32>, k: nat)
    requires ValidInstr(i) && |load| == 4 && k < 32
    ensures k != i.dst ==> Exec(i, regs, cdag, load)[k] == regs[k]
    ensures i.CacheRead? ==> Exec(i, regs, cdag, load)[i.dst] == Merge(regs[i.dst], cdag[regs[i.src] % 4096], i.r)
    ensures i.Compute? ==>
              Exec(i, regs, cdag, load)[i.dst] == Merge(regs[i.dst], Math(regs[i.src1], regs[i.src2], i.op), i.r)
    ensures i.DagRead? ==> Exec(i, regs, cdag, load)[i.dst] == Merge(regs[i.dst], load[i.word], i.r)
  {
    hide Merge, Math;
  }

  /** Executing code is executing its instructions from the first to the last. */
  lemma ExecutionIs(code: seq<Instr>, states: seq<Regs>, cdag: CDag, load: seq<u32>)
    requires ValidCode(code) && |load| == 4 && |states| == |code| + 1
    requires forall k :: 0 <= k < |code| ==> states[k + 1] == Exec(code[k], states[k], cdag, load)
    ensures ExecAll(code, states[0], cdag, load) == states[|code|]
    decreases |code|
  {
    hide Exec;
    if code != [] {
      var n := |code| - 1;
      ExecutionIs(code[..n], states[..n + 1], cdag, load);
      assert states[n + 1] == Exec(code[n], states[n], cdag, load);
    }
  }

  // Turns and the hash.

  lemma {:induction false} PartsAre(h: Hashes, cache: seq<Node>, offset: nat, n: nat, k: nat)
    requires Usable(cache) && k < 16 * n
    ensures ItemParts(h, cache, offset, n)[k]
            == DagItem(h, cache, (offset * 64 + k / 16 * 16) % 0x1_0000_0000 / 16)[k % 16]
  {
    hide DagItem;
    if k < 16 * (n - 1) {
      PartsAre(h, cache, offset, n - 1, k);
    } else {
      assert k / 16 == n - 1 && k % 16 == k - 16 * (n - 1);
    }
  }

  /**
   * One turn: the item is chosen by register zero of the lane whose turn it is; each lane then runs the program of the
   * period on its own registers and four words of the item, from the place that lane and turn xored together give.
   */
  lemma TurnIs(h: Hashes, period: u64, turn: nat, mix: seq<Regs>, cache: seq<Node>, cdag: CDag, units: nat,
               l: nat, load: seq<u32>)
    requires Usable(cache) && units > 0 && |mix| == 16 && l < 16 && |load| == 4
    requires var offset, at := mix[turn % 16][0] % units, 4 * XorBits(l, turn % 16, 4);
             forall i :: 0 <= i < 4 ==>
               load[i] == DagItem(h, cache, (offset * 64 + (at + i) / 16 * 16) % 0x1_0000_0000 / 16)[(at + i) % 16]
    ensures ValidCode(Program(PlanOf(period)))
    ensures TurnOf(h, period, turn, mix, cache, cdag, units)[l] == ExecAll(Program(PlanOf(period)), mix[l], cdag, load)
  {
    hide DagItem, ExecAll, PlanOf, Program, ItemParts, XorBits;
    ProgramCoversRegisters(period);
    var offset, at := mix[turn % 16][0] % units, LaneOffset(l, turn);
    LaneXor(l, turn);
    var item := Item(h, cache, offset);
    forall i | 0 <= i < 4
      ensures load[i] == item[at + i]
    {
      PartsAre(h, cache, offset, 4, at + i);
    }
    assert load == LaneLoad(item, l, turn);
  }

  /** The digest: FNV-1a over the 32 registers of a lane, and then over lanes i and i + 8. */
  lemma DigestIs(mix: seq<Regs>, folds: seq<seq<u32>>, i: nat)
    requires |mix| == 16 && |folds| == 16 && i < 8
    requires forall l :: 0 <= l < 16 ==>
               && |folds[l]| == 33 && folds[l][0] == 0x811c9dc5
               && forall k :: 0 <= k < 32 ==> folds[l][k + 1] == Fnv1a(folds[l][k], mix[l][k])
    ensures Digest(mix)[i] == Fnv1a(Fnv1a(0x811c9dc5, folds[i][32]), folds[i + 8][32])
  {
    hide Fnv1a;
    FoldIs(mix[i], folds[i], 32);
    FoldIs(mix[i + 8], folds[i + 8], 32);
  }

  lemma {:induction false} FoldIs(regs: Regs, fold: seq<u32>, n: nat)
    requires |fold| == 33 && fold[0] == 0x811c9dc5 && n <= 32
    requires forall k :: 0 <= k < 32 ==> fold[k + 1] == Fnv1a(fold[k], regs[k])
    ensures LaneHash(regs, n) == fold[n]
  {
    hide Fnv1a;
    if n > 0 {
      FoldIs(regs, fold, n - 1);
      assert fold[(n - 1) + 1] == Fnv1a(fold[n - 1], regs[n - 1]);
    }
  }

  /** The lanes are filled from the seed, and take 64 turns with the program of the block's tenth. */
  lemma FinalMixIs(h: Hashes, seed: u64, block: u64, cache: seq<Node>, cdag: CDag, units: nat, mixes: seq<seq<Regs>>)
    requires Usable(cache) && |mixes| == 65 && forall k :: 0 <= k < 65 ==> |mixes[k]| == 16
    requires forall l :: 0 <= l < 16 ==> mixes[0][l] == Filled(seed, l)
    requires units == DataUnits(block / 30000)
    requires forall k :: 0 <= k < 64 ==> mixes[k + 1] == TurnOf(h, block / 10, k, mixes[k], cache, cdag, units)
    ensures FinalMix(h, seed, block, cache, cdag) == mixes[64]
  {
    hide TurnOf, Filled, DataUnits;
    assert mixes[0] == StartMix(seed);
    TurnsReach(h, block / 10, mixes, cache, cdag, units, 64);
  }

  /** An item is a unit of two pages. */
  lemma UnitsAre(epoch: nat)
    ensures DataUnits(epoch) == DataPages(epoch) / 2 > 0
  {
  }

  /** The seed is the short hash of header and nonce, and the value the long hash of header, seed and digest. */
  lemma ProgpowIs(h: Hashes, header: H256, nonce: u64, block: u64, cache: seq<Node>, cdag: CDag, seed: u64, zeros: H256)
    requires Usable(cache)
    requires (forall k :: 0 <= k < 8 ==> zeros[k] == 0) && seed == ShortHash(header, nonce, zeros)
    ensures var pow := ProgpowHash(h, header, nonce, block, cache, cdag);
            && pow.mixHash == Digest(FinalMix(h, seed, block, cache, cdag))
            && pow.value == LongHash(header, seed, pow.mixHash)
  {
    hide FinalMix, Digest, ShortHash, LongHash;
    assert zeros == EMPTY;
  }

  lemma {:induction false} TurnsReach(h: Hashes, period: u64, mixes: seq<seq<Regs>>, cache: seq<Node>, cdag: CDag,
                                      units: nat, n: nat)
    requires Usable(cache) && units > 0 && |mixes| == 65 && n <= 64 && forall k :: 0 <= k < 65 ==> |mixes[k]| == 16
    requires forall k :: 0 <= k < 64 ==> mixes[k + 1] == TurnOf(h, period, k, mixes[k], cache, cdag, units)
    ensures MixAfterTurns(h, period, mixes[0], cache, cdag, units, n) == mixes[n]
  {
    hide TurnOf;
    if n > 0 {
      TurnsReach(h, period, mixes, cache, cdag, units, n - 1);
      assert mixes[(n - 1) + 1] == TurnOf(h, period, n - 1, mixes[n - 1], cache, cdag, units);
    }
  }

  /** The cached part of the dataset is its first 4096 words. */
  lemma CDagIs(h: Hashes, cache: seq<Node>, node: u32, w: nat)
    requires Usable(cache) && node < 256 && w < 16
    ensures CDagOf(h, cache)[16 * node + w] == DagItem(h, cache, node)[w]
  {
    hide DagItem;
    assert (16 * node + w) / 16 == node && (16 * node + w) % 16 == w;
  }
}
