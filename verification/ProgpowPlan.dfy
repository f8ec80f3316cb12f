/** The random program of a ProgPoW period (EIP-1057): its generator, its shuffles and its instructions. */
module ProgpowPlan {
  import opened Numerals
  import opened Words
  import opened EthashNodes

  const CNT_CACHE: nat := 11
  const CNT_MATH: nat := 18
  const DAG_LOADS: nat := 4
  const FNV_HASH: u32 := 0x811c9dc5

  function Fnv1a(h: u32, d: u32): u32 {
    Mul(Xor(h, d), FNV_PRIME)
  }

  /** State of the KISS99 generator. */
  datatype Kiss = Kiss(z: u32, w: u32, jsr: u32, jcong: u32)

  function ShiftedXors(j: u32): u32 {
    var j1 := Xor(j, j * 0x2_0000 % TWO_32);
    var j2 := Xor(j1, j1 / 0x2000);
    Xor(j2, j2 * 0x20 % TWO_32)
  }

  function NextKiss(k: Kiss): Kiss {
    Kiss(Add(Mul(36969, k.z % 0x1_0000), k.z / 0x1_0000),
         Add(Mul(18000, k.w % 0x1_0000), k.w / 0x1_0000),
         ShiftedXors(k.jsr),
         Add(Mul(69069, k.jcong), 1234567))
  }

  /** The number a generator yields on reaching this state. */
  function Output(k: Kiss): u32 {
    Add(Xor(Add(k.z * 0x1_0000 % TWO_32, k.w), k.jcong), k.jsr)
  }

  class Kiss99 {
    var z: u32
    var w: u32
    var jsr: u32
    var jcong: u32

    function View(): Kiss
      reads this
    {
      Kiss(z, w, jsr, jcong)
    }

    constructor (k: Kiss)
      ensures View() == k
    {
      z, w, jsr, jcong := k.z, k.w, k.jsr, k.jcong;
    }

    method NextU32() returns (r: u32)
      modifies this
      ensures View() == NextKiss(old(View())) && r == Output(View())
    {
      z := Add(Mul(36969, z % 0x1_0000), z / 0x1_0000);
      w := Add(Mul(18000, w % 0x1_0000), w / 0x1_0000);
      var mwc := Add(z * 0x1_0000 % TWO_32, w);
      jsr := Xor(jsr, jsr * 0x2_0000 % TWO_32);
      jsr := Xor(jsr, jsr / 0x2000);
      jsr := Xor(jsr, jsr * 0x20 % TWO_32);
      jcong := Add(Mul(69069, jcong), 1234567);
      r := Add(Xor(mwc, jcong), jsr);
    }
  }

  /** The generator of a period: FNV of the low and high words of its number, twice over. */
  function Seeded(seed: u64): Kiss {
    var lo, hi := ToU32(seed), seed / TWO_32;
    var z := Fnv1a(FNV_HASH, lo);
    var w := Fnv1a(z, hi);
    var jsr := Fnv1a(w, lo);
    Kiss(z, w, jsr, Fnv1a(jsr, hi))
  }

  // The two shuffles.

  function Identity(): (s: seq<u32>)
    ensures |s| == 32
  {
    seq(32, i requires 0 <= i < 32 => i)
  }

  function Swapped(s: seq<u32>, i: nat, j: nat): (t: seq<u32>)
    requires i < |s| && j < |s|
    ensures |t| == |s|
  {
    s[i := s[j]][j := s[i]]
  }

  /** What a period fixes for all its lanes: destinations, cache sources, and the generator from there on. */
  datatype Plan = Plan(rnd: Kiss, dst: seq<u32>, src: seq<u32>)

  ghost predicate Sized(p: Plan) {
    |p.dst| == 32 && |p.src| == 32
  }

  /** One turn of both Fisher-Yates shuffles, at position `i`. */
  function Turn(p: Plan, i: nat): (q: Plan)
    requires |p.dst| == 32 && |p.src| == 32 && i < 32
    ensures |q.dst| == 32 && |q.src| == 32
  {
    var k1 := NextKiss(p.rnd);
    var k2 := NextKiss(k1);
    Plan(k2, Swapped(p.dst, i, Mod(Output(k1), i + 1)), Swapped(p.src, i, Mod(Output(k2), i + 1)))
  }

  /** The plan after the turns at positions 31 down to `i + 1`. */
  function Turned(p: Plan, i: nat): (q: Plan)
    requires |p.dst| == 32 && |p.src| == 32 && i < 32
    ensures |q.dst| == 32 && |q.src| == 32
    decreases 32 - i
  {
    if i == 31 then p else Turn(Turned(p, i + 1), i + 1)
  }

  function PlanOf(seed: u64): (p: Plan)
    ensures |p.dst| == 32 && |p.src| == 32
  {
    Turned(Plan(Seeded(seed), Identity(), Identity()), 0)
  }

  /** A rearrangement of the register numbers: each of them exactly once. */
  ghost predicate IsPermutation(s: seq<u32>) {
    multiset(s) == multiset(Identity())
  }

  lemma SwapPermutes(s: seq<u32>, i: nat, j: nat)
    requires i < |s| && j < |s|
    ensures multiset(Swapped(s, i, j)) == multiset(s)
  {
  }

  lemma {:induction false} TurnsPermute(p: Plan, i: nat)
    requires Sized(p) && i < 32 && IsPermutation(p.dst) && IsPermutation(p.src)
    ensures IsPermutation(Turned(p, i).dst) && IsPermutation(Turned(p, i).src)
    decreases 32 - i
  {
    if i < 31 {
      TurnsPermute(p, i + 1);
      var q := Turned(p, i + 1);
      var k1 := NextKiss(q.rnd);
      SwapPermutes(q.dst, i + 1, Mod(Output(k1), i + 2));
      SwapPermutes(q.src, i + 1, Mod(Output(NextKiss(k1)), i + 2));
    }
  }

  lemma {:induction false} CountInIdentity(reg: nat)
    requires reg < 32
    ensures multiset(Identity())[reg] == 1
  {
    var s := Identity();
    assert s == s[..reg] + [reg] + s[reg + 1..];
    assert reg !in s[..reg] && reg !in s[reg + 1..];
  }

  lemma PermutationFacts(s: seq<u32>, i: nat, j: nat)
    requires |s| == 32 && IsPermutation(s) && i < 32 && j < 32
    ensures s[i] < 32 && (i < j ==> s[i] != s[j]) && multiset(s)[i] == 1
  {
    assert s[i] in multiset(s);
    assert s[i] in Identity();
    CountInIdentity(i);
    if i < j {
      CountInIdentity(s[i]);
      assert s == s[..i] + [s[i]] + s[i + 1..];
      assert s[j] in multiset(s[i + 1..]) by { assert s[j] == s[i + 1..][j - i - 1]; }
    }
  }

  lemma PermutationIsBijection(s: seq<u32>)
    requires |s| == 32 && IsPermutation(s)
    ensures forall reg :: 0 <= reg < 32 ==> multiset(s)[reg] == 1
    ensures forall i, j :: 0 <= i < j < 32 ==> s[i] != s[j]
    ensures forall i :: 0 <= i < 32 ==> s[i] < 32
  {
    forall i, j | 0 <= i < 32 && 0 <= j < 32
      ensures s[i] < 32 && (i < j ==> s[i] != s[j]) && multiset(s)[i] == 1
    {
      PermutationFacts(s, i, j);
    }
  }

  /** For every seed, both shuffles of `progpow_init` are permutations of the 32 registers. */
  lemma ShufflesArePermutations(seed: u64)
    ensures IsPermutation(PlanOf(seed).dst) && IsPermutation(PlanOf(seed).src)
  {
    TurnsPermute(Plan(Seeded(seed), Identity(), Identity()), 0);
  }

  method SwapInPlace(a: array<u32>, i: nat, j: nat)
    requires i < a.Length && j < a.Length
    modifies a
    ensures a[..] == Swapped(old(a[..]), i, j)
  {
    a[i], a[j] := a[j], a[i];
  }

  method Numbered() returns (a: array<u32>)
    ensures fresh(a) && a.Length == 32 && a[..] == Identity()
  {
    a := new u32[32];
    for i := 0 to 32
      invariant forall k :: 0 <= k < i ==> a[k] == k
    {
      a[i] := i;
    }
  }

  /** One turn of both shuffles. */
  method TurnInPlace(rnd: Kiss99, dst: array<u32>, src: array<u32>, i: nat)
    requires dst.Length == 32 && src.Length == 32 && dst != src && i < 32
    modifies rnd, dst, src
    ensures Plan(rnd.View(), dst[..], src[..]) == Turn(Plan(old(rnd.View()), old(dst[..]), old(src[..])), i)
  {
    hide NextKiss, Output, Swapped;
    var r := rnd.NextU32();
    SwapInPlace(dst, i, Mod(r, i + 1));
    r := rnd.NextU32();
    SwapInPlace(src, i, Mod(r, i + 1));
  }

  /** `progpow_init`: the in-place Fisher-Yates shuffles of both sequences, drawing from one generator. */
  method ProgpowInit(seed: u64) returns (rnd: Kiss99, dst: array<u32>, src: array<u32>)
    ensures fresh(rnd) && fresh(dst) && fresh(src) && dst.Length == 32 && src.Length == 32
    ensures Plan(rnd.View(), dst[..], src[..]) == PlanOf(seed)
  {
    hide NextKiss, Output, Fnv1a, Identity, Turn;
    var lo, hi := ToU32(seed), seed / TWO_32;
    var z := Fnv1a(FNV_HASH, lo);
    var w := Fnv1a(z, hi);
    var jsr := Fnv1a(w, lo);
    var jcong := Fnv1a(jsr, hi);
    rnd := new Kiss99(Kiss(z, w, jsr, jcong));
    dst := Numbered();
    src := Numbered();
    ghost var start := Plan(Seeded(seed), Identity(), Identity());
    var i := 31;
    while i > 0
      invariant 0 <= i <= 31 && dst != src
      invariant Plan(rnd.View(), dst[..], src[..]) == Turned(start, i)
    {
      TurnInPlace(rnd, dst, src, i);
      i := i - 1;
    }
  }
}
