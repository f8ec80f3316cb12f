/** The 800-bit Keccak permutation, in place on 25 words, against the step mappings of FIPS 202, section 3.2. */
module KeccakF800 {
  import opened Numerals
  import opened Words
  import opened EthashNodes

  const ROUNDS: nat := 22

  const RNDC: seq<u32> := [
    0x00000001, 0x00008082, 0x0000808a, 0x80008000, 0x0000808b, 0x80000001,
    0x80008081, 0x00008009, 0x0000008a, 0x00000088, 0x80008009, 0x8000000a,
    0x8000808b, 0x0000008b, 0x00008089, 0x00008003, 0x00008002, 0x00000080,
    0x0000800a, 0x8000000a, 0x80008081, 0x00008080, 0x80000001, 0x80008008]

  const ROTC: seq<nat> := [
    1, 3, 6, 10, 15, 21, 28, 36, 45, 55, 2, 14, 27, 41, 56, 8, 25, 43, 62, 18, 39, 61, 20, 44]

  const PILN: seq<nat> := [
    10, 7, 11, 17, 18, 3, 5, 16, 8, 21, 24, 4, 15, 23, 19, 13, 12, 2, 20, 14, 22, 9, 6, 1]

  /** Twenty-five words; the lane at column `x` and row `y` is word `x + 5 * y`. */
  type Sponge = w: seq<u32> | |w| == 25 witness seq(25, _ => 0)

  // The step mappings, lane by lane.

  function Column(a: Sponge, x: nat): u32
    requires x < 5
  {
    Xor(Xor(Xor(Xor(a[x], a[x + 5]), a[x + 10]), a[x + 15]), a[x + 20])
  }

  function ThetaWord(a: Sponge, x: nat): u32
    requires x < 5
  {
    Xor(Column(a, (x + 4) % 5), RotateLeft(Column(a, (x + 1) % 5), 1))
  }

  function Theta(a: Sponge): Sponge {
    seq(25, k requires 0 <= k < 25 => Xor(a[k], ThetaWord(a, k % 5)))
  }

  /** From the lane at (x, y) the walk goes to (y, 2x + 3y). */
  function NextLane(k: nat): nat {
    k / 5 + 5 * ((2 * (k % 5) + 3 * (k / 5)) % 5)
  }

  /** The lane at step `t` of the walk, which starts at (1, 0). */
  function WalkLane(t: nat): nat {
    if t == 0 then 1 else NextLane(WalkLane(t - 1))
  }

  /** The rotation at step `t` of the walk: the triangular number `(t + 1) * (t + 2) / 2`. */
  function WalkOffset(t: nat): nat {
    if t == 0 then 1 else WalkOffset(t - 1) + t + 1
  }

  lemma {:induction false} WalkOffsetTriangular(t: nat)
    ensures 2 * WalkOffset(t) == (t + 1) * (t + 2)
  {
    if t > 0 {
      WalkOffsetTriangular(t - 1);
    }
  }

  /** The step at which the in-place loop writes each lane; lane zero is never written. */
  const WRITTEN: seq<nat> := [
    24, 23, 17, 5, 11, 6, 22, 1, 8, 21, 0, 2, 16, 15, 19, 12, 7, 3, 4, 14, 18, 9, 20, 13, 10]

  /** The step of the walk that visits a lane other than lane zero. */
  function StepOf(k: nat): nat
    requires 0 < k < 25
  {
    if k == 1 then 0 else WRITTEN[k] + 1
  }

  /** Each lane visited by the walk is rotated by the offset of its step, in 32 bits; lane zero stays. */
  function Rho(a: Sponge): Sponge {
    seq(25, k requires 0 <= k < 25 => if k == 0 then a[0] else RotateLeft(a[k], WalkOffset(StepOf(k)) % 32))
  }

  /** The lane that moves to lane `k` = (x, y): the one at (x + 3y, x). */
  function PiSource(k: nat): (j: nat)
    requires k < 25
    ensures j < 25
  {
    var x, y := k % 5, k / 5; (x + 3 * y) % 5 + 5 * x
  }

  function Pi(a: Sponge): Sponge {
    seq(25, k requires 0 <= k < 25 => a[PiSource(k)])
  }

  function ChiWord(a: Sponge, k: nat): u32
    requires k < 25
  {
    var x, y := k % 5, k / 5;
    Xor(a[k], And(Not(a[(x + 1) % 5 + 5 * y]), a[(x + 2) % 5 + 5 * y]))
  }

  function Chi(a: Sponge): Sponge {
    seq(25, k requires 0 <= k < 25 => ChiWord(a, k))
  }

  function Iota(a: Sponge, r: nat): Sponge
    requires r < |RNDC|
  {
    a[0 := Xor(a[0], RNDC[r])]
  }

  // The tables of the code are the walk: where each step goes, and how far it is rotated.

  lemma TableSteps(t: nat)
    requires t < 24
    ensures 0 < PILN[t] < 25 && WRITTEN[PILN[t]] == t
  {
  }

  lemma TableNext(t: nat)
    requires t < 24
    ensures PILN[t] == NextLane(if t == 0 then 1 else PILN[t - 1])
  {
    if t < 8 {
      FirstLanes(t);
    } else if t < 16 {
      MiddleLanes(t);
    } else {
      LastLanes(t);
    }
  }

  lemma FirstLanes(t: nat)
    requires t < 8
    ensures PILN[t] == NextLane(if t == 0 then 1 else PILN[t - 1])
  {
  }

  lemma MiddleLanes(t: nat)
    requires 8 <= t < 16
    ensures PILN[t] == NextLane(PILN[t - 1])
  {
  }

  lemma LastLanes(t: nat)
    requires 16 <= t < 24
    ensures PILN[t] == NextLane(PILN[t - 1])
  {
  }

  /** Pi takes each lane of the walk back to the one before it. */
  lemma PiUndoesTheWalk(k: nat)
    requires k < 25
    ensures NextLane(k) < 25 && PiSource(NextLane(k)) == k
  {
    var x, y := k % 5, k / 5;
    var r := (2 * x + 3 * y) % 5;
    LaneParts(y, r);
    ColumnBack(x, y);
    assert NextLane(k) == 5 * r + y;
    hide NextLane;
  }

  lemma ColumnBack(x: nat, y: nat)
    requires x < 5
    ensures (y + 3 * ((2 * x + 3 * y) % 5)) % 5 == x
  {
    var q, r := (2 * x + 3 * y) / 5, (2 * x + 3 * y) % 5;
    var m := x + 2 * y - 3 * q;
    assert y + 3 * r == x + 5 * m;
    FiveMore(x, m);
  }

  lemma FiveMore(x: nat, m: int)
    requires x < 5
    ensures (x + 5 * m) % 5 == x
  {
  }

  lemma TableSources(t: nat)
    requires t < 24
    ensures PILN[t] < 25 && PiSource(PILN[t]) == if t == 0 then 1 else PILN[t - 1]
  {
    hide NextLane, PiSource;
    TableNext(t);
    if t > 0 {
      TableSteps(t - 1);
    }
    PiUndoesTheWalk(if t == 0 then 1 else PILN[t - 1]);
  }

  lemma TableRotations(t: nat)
    requires 0 < t < 24
    ensures (Rotation(t) - Rotation(t - 1) - t - 1) % 64 == 0
  {
  }

  lemma {:induction false} TableWalk(t: nat)
    requires t <= 24
    ensures WalkLane(t) == if t == 0 then 1 else PILN[t - 1]
  {
    if t > 0 {
      TableWalk(t - 1);
      TableNext(t - 1);
    }
  }

  lemma SameRotation(r: int, r0: int, t: nat)
    requires t > 0 && (r - r0 - t - 1) % 64 == 0 && r0 % 32 == WalkOffset(t - 1) % 32
    ensures r % 32 == WalkOffset(t) % 32
  {
    var w := WalkOffset(t - 1);
    assert WalkOffset(t) == w + t + 1;
    hide WalkOffset;
    var q, a, b := (r - r0 - t - 1) / 64, r0 / 32, w / 32;
    var k := a - b + 2 * q;
    assert r == w + t + 1 + 32 * k;
    WholeTurns(w + t + 1, k);
  }

  lemma WholeTurns(x: int, k: int)
    ensures (x + 32 * k) % 32 == x % 32
  {
  }

  function Rotation(t: nat): nat
    requires t < 24
  {
    ROTC[t]
  }

  lemma FirstOffset()
    ensures Rotation(0) == WalkOffset(0)
  {
  }

  lemma {:induction false} TableOffsets(t: nat)
    requires t < 24
    ensures Rotation(t) % 32 == WalkOffset(t) % 32
  {
    hide WalkOffset, Rotation;
    if t == 0 {
      FirstOffset();
    } else {
      TableOffsets(t - 1);
      TableRotations(t);
      SameRotation(Rotation(t), Rotation(t - 1), t);
    }
  }

  lemma LanesWritten(k: nat)
    requires 0 < k < 25
    ensures WRITTEN[k] < 24 && PILN[WRITTEN[k]] == k
  {
  }

  /** `Rho` is the rotation of the walk: the walk visits every lane but the origin. */
  lemma StepOfVisits(k: nat)
    requires 0 < k < 25
    ensures StepOf(k) < 24 && WalkLane(StepOf(k)) == k
  {
    LanesWritten(k);
    if k != 1 {
      LanesWritten(1);
      TableWalk(WRITTEN[k] + 1);
    }
  }

  /** One round of the permutation: theta, rho, pi, chi and iota. */
  function RoundOf(a: Sponge, r: nat): Sponge
    requires r < |RNDC|
  {
    Iota(Chi(Pi(Rho(Theta(a)))), r)
  }

  function Permute(a: Sponge, rounds: nat): Sponge
    requires rounds <= ROUNDS
  {
    if rounds == 0 then a else RoundOf(Permute(a, rounds - 1), rounds - 1)
  }

  method Columns(st: array<u32>) returns (bc: seq<u32>)
    requires st.Length == 25
    ensures |bc| == 5 && forall x :: 0 <= x < 5 ==> bc[x] == Column(st[..], x)
  {
    bc := [];
    for i := 0 to 5
      invariant |bc| == i && forall x :: 0 <= x < i ==> bc[x] == Column(st[..], x)
    {
      bc := bc + [Xor(Xor(Xor(Xor(st[i], st[i + 5]), st[i + 10]), st[i + 15]), st[i + 20])];
    }
  }

  /** Lanes already handled when going column by column, down to row `y` of column `x`. */
  predicate Before(k: nat, x: nat, y: nat) {
    k % 5 < x || (k % 5 == x && k / 5 < y)
  }

  lemma BeforeNext(k: nat, x: nat, y: nat)
    requires k < 25 && x < 5 && y < 5
    ensures Before(k, x, y + 1) <==> Before(k, x, y) || k == 5 * y + x
    ensures !Before(5 * y + x, x, y)
    ensures Before(k, x, 5) <==> Before(k, x + 1, 0)
  {
  }

  /** Part-way through an update in place: what is done has its final value, the rest its first one. */
  ghost predicate Partly(a: Sponge, goal: Sponge, s: seq<u32>, x: nat, y: nat) {
    |s| == 25 && forall k :: 0 <= k < 25 ==> s[k] == if Before(k, x, y) then goal[k] else a[k]
  }

  lemma PartlyNext(a: Sponge, goal: Sponge, s: seq<u32>, x: nat, y: nat)
    requires x < 5 && y < 5 && Partly(a, goal, s, x, y)
    ensures var k := 5 * y + x; s[k] == a[k] && Partly(a, goal, s[k := goal[k]], x, y + 1)
  {
    forall k | 0 <= k < 25
      ensures Before(k, x, y + 1) <==> Before(k, x, y) || k == 5 * y + x
    {
      BeforeNext(k, x, y);
    }
    BeforeNext(5 * y + x, x, y);
  }

  lemma PartlyColumn(a: Sponge, goal: Sponge, s: seq<u32>, x: nat)
    requires x < 5 && Partly(a, goal, s, x, 5)
    ensures Partly(a, goal, s, x + 1, 0)
  {
    forall k | 0 <= k < 25
      ensures Before(k, x, 5) <==> Before(k, x + 1, 0)
    {
      BeforeNext(k, x, 0);
    }
  }

  lemma LaneParts(x: nat, y: nat)
    requires x < 5
    ensures (5 * y + x) % 5 == x && (5 * y + x) / 5 == y
  {
  }

  lemma ThetaAt(a: Sponge, x: nat, y: nat)
    requires x < 5 && y < 5
    ensures Theta(a)[5 * y + x] == Xor(a[5 * y + x], ThetaWord(a, x))
  {
    hide Xor, ThetaWord;
    LaneParts(x, y);
  }

  lemma PartlyAll(a: Sponge, goal: Sponge, s: seq<u32>)
    requires Partly(a, goal, s, 5, 0)
    ensures s == goal
  {
    forall k | 0 <= k < 25
      ensures s[k] == goal[k]
    {
      assert Before(k, 5, 0);
    }
  }

  method ThetaColumn(st: array<u32>, x: nat, t: u32, ghost a: Sponge)
    requires st.Length == 25 && x < 5 && t == ThetaWord(a, x) && Partly(a, Theta(a), st[..], x, 0)
    modifies st
    ensures Partly(a, Theta(a), st[..], x + 1, 0)
  {
    ghost var goal := Theta(a);
    for y := 0 to 5
      invariant Partly(a, goal, st[..], x, y)
    {
      PartlyNext(a, goal, st[..], x, y);
      ThetaAt(a, x, y);
      ghost var s := st[..];
      st[5 * y + x] := Xor(st[5 * y + x], t);
      assert st[..] == s[5 * y + x := goal[5 * y + x]];
    }
    PartlyColumn(a, goal, st[..], x);
  }

  method ThetaInPlace(st: array<u32>)
    requires st.Length == 25
    modifies st
    ensures st[..] == Theta(old(st[..]))
  {
    ghost var a: Sponge := st[..];
    var bc := Columns(st);
    for x := 0 to 5
      invariant Partly(a, Theta(a), st[..], x, 0)
    {
      var t := Xor(bc[(x + 4) % 5], RotateLeft(bc[(x + 1) % 5], 1));
      ThetaColumn(st, x, t, a);
    }
    PartlyAll(a, Theta(a), st[..]);
  }

  /** Part-way through the in-place rho and pi: lanes whose step has come hold their rotated source. */
  ghost predicate Moved(a: Sponge, s: seq<u32>, i: nat) {
    |s| == 25 && forall k :: 0 <= k < 25 ==>
      s[k] == if 0 < k && WRITTEN[k] < i then RotateLeft(a[PiSource(k)], ROTC[WRITTEN[k]] % 32) else a[k]
  }

  /** The lane that step `i` of the loop writes, and the one whose value it carries. */
  function WrittenAt(i: nat): (j: nat)
    requires i < 24
    ensures j < 25
  {
    TableSteps(i);
    PILN[i]
  }

  function TakenAt(i: nat): (j: nat)
    requires i <= 24
    ensures j < 25
  {
    if i == 0 then 1 else WrittenAt(i - 1)
  }

  lemma MovedNone(a: Sponge)
    ensures Moved(a, a, 0)
  {
  }

  lemma MoveNext(a: Sponge, s: seq<u32>, i: nat)
    requires i < 24 && Moved(a, s, i)
    ensures s[WrittenAt(i)] == a[WrittenAt(i)]
    ensures Moved(a, s[WrittenAt(i) := RotateLeft(a[TakenAt(i)], Rotation(i) % 32)], i + 1)
  {
    TableSteps(i);
    TableSources(i);
    var j := PILN[i];
    forall k | 0 < k < 25 && WRITTEN[k] == i
      ensures k == j
    {
      LanesWritten(k);
    }
  }

  lemma MovedAll(a: Sponge, s: seq<u32>)
    requires Moved(a, s, 24)
    ensures s == Pi(Rho(a))
  {
    hide RotateLeft, WalkOffset, StepOf, PiSource;
    LaneZero();
    forall k | 0 <= k < 25
      ensures s[k] == Pi(Rho(a))[k]
    {
      if k > 0 {
        SourceStep(k);
      }
    }
  }

  lemma LaneZero()
    ensures PiSource(0) == 0
  {
  }

  /** The lane that moves to lane `k` is the one the walk visits when the loop writes `k`, rotated as the walk says. */
  lemma SourceStep(k: nat)
    requires 0 < k < 25
    ensures WRITTEN[k] < 24 && PiSource(k) > 0 && StepOf(PiSource(k)) == WRITTEN[k]
    ensures ROTC[WRITTEN[k]] % 32 == WalkOffset(WRITTEN[k]) % 32
  {
    hide PiSource, WalkOffset;
    var t := WRITTEN[k];
    LanesWritten(k);
    TableSources(t);
    TableOffsets(t);
    if t > 0 {
      TableSteps(t - 1);
      LastStep(t - 1);
    }
  }

  lemma LastStep(t: nat)
    requires t < 23
    ensures PILN[t] != 1
  {
  }

  method MoveLane(st: array<u32>, i: nat, t: u32) returns (b: u32)
    requires st.Length == 25 && i < 24
    modifies st
    ensures b == old(st[WrittenAt(i)]) && st[..] == old(st[..])[WrittenAt(i) := RotateLeft(t, Rotation(i) % 32)]
  {
    hide RotateLeft;
    TableSteps(i);
    var j := PILN[i];
    b := st[j];
    st[j] := RotateLeft(t, ROTC[i] % 32);
  }

  method RhoPiInPlace(st: array<u32>)
    requires st.Length == 25
    modifies st
    ensures st[..] == Pi(Rho(old(st[..])))
  {
    hide Pi, Rho, RotateLeft;
    ghost var a: Sponge := st[..];
    var t := st[1];
    MovedNone(a);
    hide Moved, WrittenAt, Rotation;
    for i := 0 to 24
      invariant Moved(a, st[..], i)
      invariant t == a[TakenAt(i)]
    {
      MoveNext(a, st[..], i);
      t := MoveLane(st, i, t);
    }
    MovedAll(a, st[..]);
  }

  /** Part-way through the in-place chi: the first `n` lanes are done. */
  ghost predicate Blended(a: Sponge, s: seq<u32>, n: nat) {
    |s| == 25 && forall k :: 0 <= k < 25 ==> s[k] == if k < n then Chi(a)[k] else a[k]
  }

  lemma ChiAt(a: Sponge, x: nat, y: nat)
    requires x < 5 && y < 5
    ensures Chi(a)[5 * y + x] == Xor(a[5 * y + x], And(Not(a[5 * y + (x + 1) % 5]), a[5 * y + (x + 2) % 5]))
  {
    hide Xor, And, Not;
    LaneParts(x, y);
  }

  method ChiRow(st: array<u32>, y: nat, bc: seq<u32>, ghost a: Sponge)
    requires st.Length == 25 && y < 5 && Blended(a, st[..], 5 * y)
    requires |bc| == 5 && forall x :: 0 <= x < 5 ==> bc[x] == a[5 * y + x]
    modifies st
    ensures Blended(a, st[..], 5 * y + 5)
  {
    for x := 0 to 5
      invariant Blended(a, st[..], 5 * y + x)
    {
      ChiAt(a, x, y);
      ghost var s := st[..];
      st[5 * y + x] := Xor(st[5 * y + x], And(Not(bc[(x + 1) % 5]), bc[(x + 2) % 5]));
      assert st[..] == s[5 * y + x := Chi(a)[5 * y + x]];
    }
  }

  method ChiInPlace(st: array<u32>)
    requires st.Length == 25
    modifies st
    ensures st[..] == Chi(old(st[..]))
  {
    ghost var a: Sponge := st[..];
    for y := 0 to 5
      invariant Blended(a, st[..], 5 * y)
    {
      ChiRow(st, y, st[5 * y..5 * y + 5], a);
    }
  }

  method IotaInPlace(st: array<u32>, r: nat)
    requires st.Length == 25 && r < |RNDC|
    modifies st
    ensures st[..] == Iota(old(st[..]), r)
  {
    st[0] := Xor(st[0], RNDC[r]);
  }

  /** `keccak_f800_round`: the in-place code is the composition of the five step mappings. */
  method Round(st: array<u32>, r: nat)
    requires st.Length == 25 && r < |RNDC|
    modifies st
    ensures st[..] == Iota(Chi(Pi(Rho(Theta(old(st[..]))))), r)
  {
    ThetaInPlace(st);
    RhoPiInPlace(st);
    ChiInPlace(st);
    IotaInPlace(st, r);
  }

  /** Header, nonce and eight more words at the front of an otherwise empty sponge. */
  function Absorbed(header: H256, nonce: u64, input: H256): Sponge {
    header + NonceWords(nonce) + input + [0, 0, 0, 0, 0, 0, 0]
  }

  /** The sponge after all 22 rounds. */
  function Squeezed(header: H256, nonce: u64, input: H256): Sponge {
    Permute(Absorbed(header, nonce, input), ROUNDS)
  }

  method Absorb(header: H256, nonce: u64, input: H256) returns (st: array<u32>)
    ensures fresh(st) && st.Length == 25 && st[..] == Absorbed(header, nonce, input)
  {
    st := new u32[25](i => 0);
    for i := 0 to 8
      invariant forall k :: 0 <= k < 25 ==> st[k] == if k < i then header[k] else 0
    {
      st[i] := header[i];
    }
    st[8] := ToU32(nonce);
    st[9] := nonce / TWO_32;
    for i := 0 to 8
      invariant forall k :: 0 <= k < 25 ==>
        st[k] == if k < 8 then header[k] else if k < 10 then NonceWords(nonce)[k - 8]
                 else if k < 10 + i then input[k - 10] else 0
    {
      st[10 + i] := input[i];
    }
  }

  method Sponged(header: H256, nonce: u64, input: H256) returns (st: array<u32>)
    ensures fresh(st) && st.Length == 25 && st[..] == Squeezed(header, nonce, input)
  {
    hide Iota, Chi, Pi, Rho, Theta, Absorbed;
    st := Absorb(header, nonce, input);
    for r := 0 to ROUNDS
      invariant st[..] == Permute(Absorbed(header, nonce, input), r)
    {
      Round(st, r);
    }
  }

  /** The 64-bit seed: the first two words, each with its bytes swapped. */
  function ShortHash(header: H256, nonce: u64, input: H256): u64 {
    var st := Squeezed(header, nonce, input);
    SwapBytes(st[0]) * TWO_32 + SwapBytes(st[1])
  }

  function LongHash(header: H256, nonce: u64, input: H256): H256 {
    Squeezed(header, nonce, input)[..8]
  }

  method KeccakShort(header: H256, nonce: u64, input: H256) returns (seed: u64)
    ensures seed == ShortHash(header, nonce, input)
  {
    hide Squeezed;
    var st := Sponged(header, nonce, input);
    seed := SwapBytes(st[0]) * TWO_32 + SwapBytes(st[1]);
  }

  method KeccakLong(header: H256, nonce: u64, input: H256) returns (hash: H256)
    ensures hash == LongHash(header, nonce, input)
  {
    hide Squeezed;
    var st := Sponged(header, nonce, input);
    hash := st[..8];
  }
}
