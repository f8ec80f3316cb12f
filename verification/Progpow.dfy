/** The ProgPoW hash: lanes in place, the dataset item they share, and the final digest. */
module Progpow {
  import opened Numerals
  import opened Arithmetic
  import opened Words
  import opened EthashNodes
  import opened EthashSizes
  import opened Hashimoto
  import opened KeccakF800
  import opened ProgpowPlan
  import opened ProgpowProgram

  const PERIOD_LENGTH: nat := 10
  const CNT_DAG: nat := 64

  /** Where lane `l` starts reading in the dataset item of turn `turn`; the exclusive or is one of 64 bits. */
  function LaneOffset(l: nat, turn: nat): (o: nat)
    ensures o <= 60
  {
    XorBits(l, turn, 64) % 16 * 4
  }

  /** The low `k` bits of an exclusive or are the exclusive or of the low `k` bits. */
  lemma {:induction false} LowXor(x: nat, y: nat, n: nat, k: nat)
    requires k <= n
    ensures XorBits(x, y, n) % Pow2(k) == XorBits(x % Pow2(k), y % Pow2(k), k)
  {
    if k > 0 {
      LowXor(x / 2, y / 2, n - 1, k - 1);
      XorHalves(x, y, n);
      XorHalves(x % Pow2(k), y % Pow2(k), k);
      hide XorBits, Pow2;
      LowHalf(x, k);
      LowHalf(y, k);
      LowHalf(XorBits(x, y, n), k);
    }
  }

  lemma XorHalves(x: nat, y: nat, n: nat)
    requires n > 0
    ensures XorBits(x, y, n) == 2 * XorBits(x / 2, y / 2, n - 1) + Bit(x % 2 != y % 2)
    ensures XorBits(x, y, n) / 2 == XorBits(x / 2, y / 2, n - 1) && XorBits(x, y, n) % 2 == Bit(x % 2 != y % 2)
  {
    Halves(XorBits(x / 2, y / 2, n - 1), Bit(x % 2 != y % 2));
  }

  /** Lane `l` reads `word` of the dataset item as its load number `i`. */
  ghost predicate Reads(l: nat, i: nat, turn: nat, word: nat) {
    l < 16 && i < 4 && LaneOffset(l, turn) + i == word
  }

  lemma LaneXor(l: nat, turn: nat)
    requires l < 16
    ensures LaneOffset(l, turn) == 4 * XorBits(l, turn % 16, 4)
  {
    hide XorBits;
    assert Pow2(4) == 16;
    LowXor(l, turn, 64, 4);
  }

  lemma XorSixteen(x: nat, y: nat)
    requires x < 16
    ensures XorBits(x, y, 4) < 16 && XorBits(XorBits(x, y, 4), y, 4) == x
  {
    assert Pow2(4) == 16;
    BitwiseBound(x, y, 4);
    XorTwice(x, y, 4);
  }

  lemma Quarters(x: nat, i: nat, y: nat, j: nat)
    requires i < 4 && j < 4 && 4 * x + i == 4 * y + j
    ensures x == y && i == j
  {
  }

  /** In every turn the sixteen lanes read each of the 64 words of the dataset item exactly once. */
  lemma LanesShareTheItem(turn: nat, word: nat)
    requires word < 64
    ensures exists l, i :: Reads(l, i, turn, word)
    ensures forall l, i, l', i' :: Reads(l, i, turn, word) && Reads(l', i', turn, word) ==> l == l' && i == i'
  {
    hide XorBits, LaneOffset;
    var t := turn % 16;
    var l := XorBits(word / 4, t, 4);
    XorSixteen(word / 4, t);
    LaneXor(l, turn);
    assert Reads(l, word % 4, turn, word);
    forall a, i, b, j | Reads(a, i, turn, word) && Reads(b, j, turn, word)
      ensures a == b && i == j
    {
      LaneXor(a, turn);
      LaneXor(b, turn);
      Quarters(XorBits(a, t, 4), i, XorBits(b, t, 4), j);
      XorSixteen(a, t);
      XorSixteen(b, t);
    }
  }

  // One turn of the loop.

  function DataUnits(epoch: nat): (n: nat)
    ensures n >= 1
  {
    MIX_BYTES * DataPages(epoch) / (2 * MIX_BYTES)
  }

  /** Index of part `part` of the item at `offset`, after the cast of the word index to 32 bits. */
  function PartIndex(offset: nat, part: nat): u32 {
    ToU32(offset * 64 + part * 16) / 16
  }

  function ItemParts(h: Hashes, cache: seq<Node>, offset: nat, n: nat): (words: seq<u32>)
    requires Usable(cache)
    ensures |words| == 16 * n
  {
    if n == 0 then [] else ItemParts(h, cache, offset, n - 1) + DagItem(h, cache, PartIndex(offset, n - 1))
  }

  /** The 64 words that all lanes of a turn share. */
  function Item(h: Hashes, cache: seq<Node>, offset: nat): (words: seq<u32>)
    requires Usable(cache)
    ensures |words| == 64
  {
    ItemParts(h, cache, offset, DAG_LOADS)
  }

  function LaneLoad(item: seq<u32>, l: nat, turn: nat): (load: seq<u32>)
    requires |item| == 64
    ensures |load| == 4
  {
    item[LaneOffset(l, turn)..LaneOffset(l, turn) + 4]
  }

  function Code(seed: u64): (code: seq<Instr>)
    ensures ValidCode(code)
  {
    ProgramCoversRegisters(seed);
    Program(PlanOf(seed))
  }

  function LaneAfter(seed: u64, turn: nat, regs: Regs, cdag: CDag, item: seq<u32>, l: nat): Regs
    requires |item| == 64
  {
    ExecAll(Code(seed), regs, cdag, LaneLoad(item, l, turn))
  }

  /** One turn: the item is fixed by register zero of one lane, then every lane runs the program of the period. */
  function TurnOf(h: Hashes, seed: u64, turn: nat, mix: seq<Regs>, cache: seq<Node>, cdag: CDag, units: nat)
    : (m: seq<Regs>)
    requires Usable(cache) && units > 0 && |mix| == 16
    ensures |m| == 16
  {
    var item := Item(h, cache, Mod(mix[turn % 16][0], units));
    seq(16, l requires 0 <= l < 16 => LaneAfter(seed, turn, mix[l], cdag, item, l))
  }

  // The same turn in place.

  method RunCacheRead(mix: array<Regs>, l: nat, rnd: Kiss99, src: nat, dst: nat, cdag: CDag, ghost load: seq<u32>)
    requires l < mix.Length && src < 32 && dst < 32 && |load| == 4
    modifies mix, rnd
    ensures rnd.View() == NextKiss(old(rnd.View()))
    ensures mix[..] == old(mix[..])[l := Exec(CacheRead(src, dst, Output(rnd.View())), old(mix[l]), cdag, load)]
  {
    hide NextKiss, Output, Merge;
    var offset := Mod(mix[l][src], CACHE_WORDS);
    var data := cdag[offset];
    var r := rnd.NextU32();
    mix[l] := mix[l][dst := Merge(mix[l][dst], data, r)];
  }

  method RunMath(mix: array<Regs>, l: nat, rnd: Kiss99, dst: nat, ghost cdag: CDag, ghost load: seq<u32>)
    requires l < mix.Length && dst < 32 && |load| == 4
    modifies mix, rnd
    ensures var k1 := NextKiss(old(rnd.View()));
            var k2 := NextKiss(k1);
            var k3 := NextKiss(k2);
            var (src1, src2) := Sources(Output(k1));
            var i := Compute(src1, src2, Output(k2), dst, Output(k3));
            && rnd.View() == k3
            && ValidInstr(i)
            && mix[..] == old(mix[..])[l := Exec(i, old(mix[l]), cdag, load)]
  {
    hide NextKiss, Output, Merge, Math;
    var x := rnd.NextU32();
    SourcesDiffer(x);
    var srcRnd := x % (32 * 31);
    var src1 := srcRnd % 32;
    var src2 := srcRnd / 32;
    if src2 >= src1 {
      src2 := src2 + 1;
    }
    var op := rnd.NextU32();
    var data := Math(mix[l][src1], mix[l][src2], op);
    var r := rnd.NextU32();
    mix[l] := mix[l][dst := Merge(mix[l][dst], data, r)];
  }

  method RunLoad(mix: array<Regs>, l: nat, rnd: Kiss99, load: seq<u32>, word: nat, dst: nat, ghost cdag: CDag)
    requires l < mix.Length && dst < 32 && |load| == 4 && word < 4
    modifies mix, rnd
    ensures rnd.View() == NextKiss(old(rnd.View()))
    ensures mix[..] == old(mix[..])[l := Exec(DagRead(word, dst, Output(rnd.View())), old(mix[l]), cdag, load)]
  {
    hide NextKiss, Output, Merge;
    var r := rnd.NextU32();
    mix[l] := mix[l][dst := Merge(mix[l][dst], load[word], r)];
  }

  /** Lane `l` has run this much of the code, the generator stands where the code left it, other lanes are as before. */
  ghost predicate Ran(e: Emission, rnd: Kiss, before: seq<Regs>, now: seq<Regs>, l: nat, cdag: CDag, load: seq<u32>) {
    && |load| == 4 && l < |before| && ValidCode(e.code)
    && rnd == e.rnd
    && now == before[l := ExecAll(e.code, before[l], cdag, load)]
  }

  lemma RanMore(e: Emission, e': Emission, i: Instr, before: seq<Regs>, now: seq<Regs>, l: nat,
                cdag: CDag, load: seq<u32>)
    requires Ran(e, e.rnd, before, now, l, cdag, load) && ValidInstr(i) && e'.code == e.code + [i]
    ensures Ran(e', e'.rnd, before, now[l := Exec(i, now[l], cdag, load)], l, cdag, load)
  {
    hide Exec;
    ExecAppend(e.code, i, before[l], cdag, load);
  }

  method RunCacheTurn(mix: array<Regs>, l: nat, rnd: Kiss99, src: nat, dst: nat, cdag: CDag,
                      ghost e: Emission, ghost before: seq<Regs>, ghost load: seq<u32>)
    requires l < mix.Length && src < 32 && dst < 32 && Ran(e, rnd.View(), before, mix[..], l, cdag, load)
    modifies mix, rnd
    ensures Ran(EmitCache(e, src, dst), rnd.View(), before, mix[..], l, cdag, load)
  {
    hide NextKiss, Output, Exec;
    ghost var now := mix[..];
    RunCacheRead(mix, l, rnd, src, dst, cdag, load);
    RanMore(e, EmitCache(e, src, dst), CacheRead(src, dst, Output(rnd.View())), before, now, l, cdag, load);
  }

  method RunMathTurn(mix: array<Regs>, l: nat, rnd: Kiss99, dst: nat, ghost cdag: CDag,
                     ghost e: Emission, ghost before: seq<Regs>, ghost load: seq<u32>)
    requires l < mix.Length && dst < 32 && Ran(e, rnd.View(), before, mix[..], l, cdag, load)
    modifies mix, rnd
    ensures Ran(EmitMath(e, dst), rnd.View(), before, mix[..], l, cdag, load)
  {
    hide NextKiss, Output, Sources, Exec;
    ghost var now := mix[..];
    RunMath(mix, l, rnd, dst, cdag, load);
    RanMore(e, EmitMath(e, dst), EmitMath(e, dst).code[|e.code|], before, now, l, cdag, load);
  }

  method RunLoadTurn(mix: array<Regs>, l: nat, rnd: Kiss99, load: seq<u32>, word: nat, dst: nat, ghost cdag: CDag,
                     ghost e: Emission, ghost before: seq<Regs>)
    requires l < mix.Length && dst < 32 && word < 4 && Ran(e, rnd.View(), before, mix[..], l, cdag, load)
    modifies mix, rnd
    ensures Ran(EmitLoad(e, word, dst), rnd.View(), before, mix[..], l, cdag, load)
  {
    hide NextKiss, Output, Exec;
    ghost var now := mix[..];
    RunLoad(mix, l, rnd, load, word, dst, cdag);
    RanMore(e, EmitLoad(e, word, dst), DagRead(word, dst, Output(rnd.View())), before, now, l, cdag, load);
  }

  /** One turn of the main loop of a lane, with the counters as the turns before have left them. */
  method RunTurn(mix: array<Regs>, l: nat, rnd: Kiss99, dst: array<u32>, src: array<u32>, cdag: CDag, i: nat,
                 dstCnt: nat, cacheCnt: nat, ghost p: Plan, ghost before: seq<Regs>, ghost load: seq<u32>)
    returns (dstCnt': nat, cacheCnt': nat)
    requires l < mix.Length && dst.Length == 32 && src.Length == 32 && i < CNT_MATH
    requires InRange(p) && dst[..] == p.dst && src[..] == p.src
    requires dstCnt == UsedDsts(i) && (i < CNT_CACHE ==> cacheCnt == i)
    requires Ran(Turns(p, i), rnd.View(), before, mix[..], l, cdag, load)
    modifies mix, rnd
    ensures dstCnt' == UsedDsts(i + 1) && (i < CNT_CACHE ==> cacheCnt' == i + 1)
    ensures Ran(Turns(p, i + 1), rnd.View(), before, mix[..], l, cdag, load)
  {
    hide EmitCache, EmitMath, Ran;
    dstCnt', cacheCnt' := dstCnt, cacheCnt;
    ghost var e := Turns(p, i);
    if i < CNT_CACHE {
      var from, to := src[cacheCnt % 32], dst[dstCnt % 32];
      assert from == p.src[i] && to == p.dst[2 * i];
      RunCacheTurn(mix, l, rnd, from, to, cdag, e, before, load);
      e := EmitCache(e, from, to);
      cacheCnt' := cacheCnt + 1;
      dstCnt' := dstCnt + 1;
    }
    var to := dst[dstCnt' % 32];
    assert to == p.dst[dstCnt'];
    RunMathTurn(mix, l, rnd, to, cdag, e, before, load);
    dstCnt' := dstCnt' + 1;
  }

  method RunTurns(mix: array<Regs>, l: nat, rnd: Kiss99, dst: array<u32>, src: array<u32>, cdag: CDag,
                  ghost p: Plan, ghost load: seq<u32>) returns (dstCnt: nat)
    requires l < mix.Length && |load| == 4 && dst.Length == 32 && src.Length == 32
    requires p == Plan(rnd.View(), dst[..], src[..]) && InRange(p)
    modifies mix, rnd
    ensures dstCnt == 29 && Ran(Turns(p, CNT_MATH), rnd.View(), old(mix[..]), mix[..], l, cdag, load)
  {
    hide EmitCache, EmitMath, Ran;
    dstCnt := 0;
    var cacheCnt := 0;
    ghost var before := mix[..];
    RanNothing(p, before, l, cdag, load);
    for i := 0 to CNT_MATH
      invariant dstCnt == UsedDsts(i) && (i <= CNT_CACHE ==> cacheCnt == i)
      invariant Ran(Turns(p, i), rnd.View(), before, mix[..], l, cdag, load)
    {
      dstCnt, cacheCnt := RunTurn(mix, l, rnd, dst, src, cdag, i, dstCnt, cacheCnt, p, before, load);
    }
  }

  /** One lane of `progpow_loop`: two counters walk through the destination and source sequences. */
  method RunLane(mix: array<Regs>, l: nat, rnd: Kiss99, dst: array<u32>, src: array<u32>, cdag: CDag,
                 ghost p: Plan, load: seq<u32>)
    requires l < mix.Length && |load| == 4 && dst.Length == 32 && src.Length == 32
    requires p == Plan(rnd.View(), dst[..], src[..]) && InRange(p)
    modifies mix, rnd
    ensures Ran(Loads(p, DAG_LOADS), rnd.View(), old(mix[..]), mix[..], l, cdag, load)
  {
    hide EmitLoad, Ran, Turns;
    ghost var before := mix[..];
    var dstCnt := RunTurns(mix, l, rnd, dst, src, cdag, p, load);
    RunLoadTurn(mix, l, rnd, load, 0, 0, cdag, Loads(p, 0), before);
    for i := 1 to DAG_LOADS
      invariant dstCnt == 28 + i
      invariant Ran(Loads(p, i), rnd.View(), before, mix[..], l, cdag, load)
    {
      RunLoadTurn(mix, l, rnd, load, i, dst[dstCnt % 32], cdag, Loads(p, i), before);
      dstCnt := dstCnt + 1;
    }
  }

  lemma RanNothing(p: Plan, before: seq<Regs>, l: nat, cdag: CDag, load: seq<u32>)
    requires |p.dst| == 32 && |p.src| == 32 && l < |before| && |load| == 4
    ensures Ran(Turns(p, 0), p.rnd, before, before, l, cdag, load)
  {
  }

  method FetchItem(h: Hashes, cache: seq<Node>, offset: nat) returns (item: seq<u32>)
    requires Usable(cache)
    ensures |item| == 64 && item == Item(h, cache, offset)
  {
    hide DagItem;
    item := [];
    for l := 0 to DAG_LOADS
      invariant item == ItemParts(h, cache, offset, l)
    {
      var index := offset * 64 + l * 16;
      var node := CalculateDagItem(h, cache, ToU32(index) / 16);
      item := item + node;
    }
  }

  method RunLanes(seed: u64, turn: nat, mix: array<Regs>, cdag: CDag, item: seq<u32>)
    requires mix.Length == 16 && |item| == 64
    modifies mix
    ensures forall l :: 0 <= l < 16 ==> mix[l] == LaneAfter(seed, turn, old(mix[l]), cdag, item, l)
  {
    hide PlanOf, Program, Loads, ExecAll;
    var rnd, dst, src := ProgpowInit(seed);
    ghost var p := PlanOf(seed);
    ShufflesArePermutations(seed);
    PermutationIsBijection(p.dst);
    PermutationIsBijection(p.src);
    for l := 0 to 16
      invariant rnd.View() == p.rnd && dst[..] == p.dst && src[..] == p.src
      invariant forall k :: 0 <= k < 16 ==>
                  mix[k] == if k < l then LaneAfter(seed, turn, old(mix[k]), cdag, item, k) else old(mix[k])
    {
      var laneRnd := new Kiss99(rnd.View());
      var load := LaneLoad(item, l, turn);
      ghost var before := mix[..];
      RunLane(mix, l, laneRnd, dst, src, cdag, p, load);
      LaneDone(seed, turn, cdag, item, l, before, mix[..], laneRnd.View());
    }
  }

  lemma LaneDone(seed: u64, turn: nat, cdag: CDag, item: seq<u32>, l: nat, before: seq<Regs>, now: seq<Regs>, rnd: Kiss)
    requires |item| == 64 && l < |before|
    requires Ran(Loads(PlanOf(seed), DAG_LOADS), rnd, before, now, l, cdag, LaneLoad(item, l, turn))
    ensures now == before[l := LaneAfter(seed, turn, before[l], cdag, item, l)]
  {
    hide PlanOf, Loads, ExecAll;
  }

  /** `progpow_loop`: one turn over all lanes, in place. */
  method ProgpowLoop(h: Hashes, seed: u64, turn: nat, mix: array<Regs>, cache: seq<Node>, cdag: CDag, units: nat)
    requires mix.Length == 16 && Usable(cache) && units > 0
    modifies mix
    ensures mix[..] == TurnOf(h, seed, turn, old(mix[..]), cache, cdag, units)
  {
    hide LaneAfter, Item;
    var offset := Mod(mix[turn % 16][0], 64 * units / (LANES * DAG_LOADS));
    var item := FetchItem(h, cache, offset);
    RunLanes(seed, turn, mix, cdag, item);
  }

  // The whole hash.

  function KissAfter(k: Kiss, n: nat): Kiss {
    if n == 0 then k else NextKiss(KissAfter(k, n - 1))
  }

  function LaneKiss(seed: u64, lane: u32): Kiss {
    var z := Fnv1a(FNV_HASH, ToU32(seed));
    var w := Fnv1a(z, seed / TWO_32);
    var jsr := Fnv1a(w, lane);
    Kiss(z, w, jsr, Fnv1a(jsr, lane))
  }

  /** First registers of a lane: the outputs of its own generator. */
  function Filled(seed: u64, lane: u32): Regs {
    seq(32, i requires 0 <= i < 32 => Output(KissAfter(LaneKiss(seed, lane), i + 1)))
  }

  method FillMix(seed: u64, lane: u32) returns (mix: Regs)
    ensures mix == Filled(seed, lane)
  {
    hide NextKiss, Output, Fnv1a;
    var z := Fnv1a(FNV_HASH, ToU32(seed));
    var w := Fnv1a(z, seed / TWO_32);
    var jsr := Fnv1a(w, lane);
    var jcong := Fnv1a(jsr, lane);
    var rnd := new Kiss99(Kiss(z, w, jsr, jcong));
    mix := seq(32, _ => 0);
    for i := 0 to 32
      invariant rnd.View() == KissAfter(LaneKiss(seed, lane), i)
      invariant forall k :: 0 <= k < i ==> mix[k] == Output(KissAfter(LaneKiss(seed, lane), k + 1))
    {
      var r := rnd.NextU32();
      mix := mix[i := r];
    }
  }

  /** FNV over the first `n` registers of a lane. */
  function LaneHash(regs: Regs, n: nat): u32
    requires n <= 32
  {
    if n == 0 then FNV_HASH else Fnv1a(LaneHash(regs, n - 1), regs[n - 1])
  }

  function Digest(mix: seq<Regs>): H256
    requires |mix| == 16
  {
    seq(8, i requires 0 <= i < 8 => Fnv1a(Fnv1a(FNV_HASH, LaneHash(mix[i], 32)), LaneHash(mix[i + 8], 32)))
  }

  /** Each lane is reduced to a word, and lanes eight apart are folded into one word of the result. */
  method Reduce(mix: array<Regs>) returns (result: H256)
    requires mix.Length == 16
    ensures result == Digest(mix[..])
  {
    hide Fnv1a;
    var laneResults := new u32[16](i => FNV_HASH);
    for l := 0 to 16
      invariant forall k :: 0 <= k < l ==> laneResults[k] == LaneHash(mix[k], 32)
    {
      var acc := FNV_HASH;
      for i := 0 to 32
        invariant acc == LaneHash(mix[l], i)
      {
        acc := Fnv1a(acc, mix[l][i]);
      }
      laneResults[l] := acc;
    }
    result := FoldLanes(laneResults[..]);
  }

  method FoldLanes(lanes: seq<u32>) returns (result: H256)
    requires |lanes| == 16
    ensures forall i :: 0 <= i < 8 ==> result[i] == Fnv1a(Fnv1a(FNV_HASH, lanes[i]), lanes[i + 8])
  {
    hide Fnv1a;
    result := seq(8, _ => FNV_HASH);
    for l := 0 to 16
      invariant forall i :: 0 <= i < 8 ==>
                  result[i] == if l <= i then FNV_HASH
                               else if l <= i + 8 then Fnv1a(FNV_HASH, lanes[i])
                               else Fnv1a(Fnv1a(FNV_HASH, lanes[i]), lanes[i + 8])
    {
      result := result[l % 8 := Fnv1a(result[l % 8], lanes[l])];
    }
  }

  const EMPTY: H256 := [0, 0, 0, 0, 0, 0, 0, 0]

  function StartMix(seed: u64): (m: seq<Regs>)
    ensures |m| == 16
  {
    seq(16, l requires 0 <= l < 16 => Filled(seed, l))
  }

  function MixAfterTurns(h: Hashes, period: u64, start: seq<Regs>, cache: seq<Node>, cdag: CDag, units: nat, n: nat)
    : (m: seq<Regs>)
    requires Usable(cache) && units > 0 && |start| == 16
    ensures |m| == 16
  {
    if n == 0 then start
    else TurnOf(h, period, n - 1, MixAfterTurns(h, period, start, cache, cdag, units, n - 1), cache, cdag, units)
  }

  /** The registers of all lanes after the 64 turns of a hash. */
  function FinalMix(h: Hashes, seed: u64, block: u64, cache: seq<Node>, cdag: CDag): (m: seq<Regs>)
    requires Usable(cache)
    ensures |m| == 16
  {
    MixAfterTurns(h, block / PERIOD_LENGTH, StartMix(seed), cache, cdag, DataUnits(Epoch(block)), CNT_DAG)
  }

  function Sealed(header: H256, seed: u64, result: H256): ProofOfWork {
    ProofOfWork(LongHash(header, seed, result), result)
  }

  /** The ProgPoW proof of work: the digest over header, seed and mix, and the mix itself. */
  function ProgpowHash(h: Hashes, header: H256, nonce: u64, block: u64, cache: seq<Node>, cdag: CDag): ProofOfWork
    requires Usable(cache)
  {
    var seed := ShortHash(header, nonce, EMPTY);
    Sealed(header, seed, Digest(FinalMix(h, seed, block, cache, cdag)))
  }

  method FillLanes(seed: u64) returns (mix: array<Regs>)
    ensures fresh(mix) && mix.Length == 16 && mix[..] == StartMix(seed)
  {
    hide Filled;
    mix := new Regs[16](i => seq(32, _ => 0));
    for l := 0 to 16
      invariant forall k :: 0 <= k < l ==> mix[k] == Filled(seed, k)
    {
      mix[l] := FillMix(seed, l);
    }
  }

  method AllTurns(h: Hashes, period: u64, mix: array<Regs>, cache: seq<Node>, cdag: CDag, units: nat)
    requires mix.Length == 16 && Usable(cache) && units > 0
    modifies mix
    ensures mix[..] == MixAfterTurns(h, period, old(mix[..]), cache, cdag, units, CNT_DAG)
  {
    hide TurnOf;
    for i := 0 to CNT_DAG
      invariant mix[..] == MixAfterTurns(h, period, old(mix[..]), cache, cdag, units, i)
    {
      ProgpowLoop(h, period, i, mix, cache, cdag, units);
    }
  }

  /** `progpow`: the size is halved into units of 256 bytes, which are never none. */
  method ComputeProgpow(h: Hashes, header: H256, nonce: u64, block: u64, cache: seq<Node>, cdag: CDag)
    returns (r: ProofOfWork)
    requires Usable(cache)
    ensures r == ProgpowHash(h, header, nonce, block, cache, cdag)
  {
    hide StartMix, MixAfterTurns, Digest, ShortHash, LongHash;
    var dataSize := GetDataSize(block);
    var units := dataSize / (2 * MIX_BYTES);
    assert units == DataUnits(Epoch(block));
    var seed := KeccakShort(header, nonce, EMPTY);
    var mix := FillLanes(seed);
    AllTurns(h, block / PERIOD_LENGTH, mix, cache, cdag, units);
    var result := Reduce(mix);
    var digest := KeccakLong(header, seed, result);
    r := ProofOfWork(digest, result);
  }

  /** Words of the cached part of the dataset: its first 256 nodes, one after the other. */
  function CDagOf(h: Hashes, cache: seq<Node>): CDag
    requires Usable(cache)
  {
    seq(4096, k requires 0 <= k < 4096 => DagItem(h, cache, k / 16)[k % 16])
  }

  method GenerateCDag(h: Hashes, cache: seq<Node>) returns (cdag: CDag)
    requires Usable(cache)
    ensures cdag == CDagOf(h, cache)
  {
    hide DagItem;
    var words: seq<u32> := [];
    for i := 0 to CACHE_WORDS / 16
      invariant |words| == 16 * i
      invariant forall k :: 0 <= k < 16 * i ==> words[k] == DagItem(h, cache, k / 16)[k % 16]
    {
      var node := CalculateDagItem(h, cache, i);
      words := words + node;
    }
    cdag := words;
  }

  // Checking a proof of work without the cache.

  /** `quick_get_difficulty`: what the final hash must be, given the mix that a full computation would find. */
  function QuickDifficulty(h: Hashes, header: H256, nonce: u64, mixHash: H256, progpow: bool): H256 {
    if progpow then LongHash(header, ShortHash(header, nonce, EMPTY), mixHash)
    else h.keccak256(HalfMix(h, header, nonce) + mixHash)
  }

  method QuickGetDifficulty(h: Hashes, header: H256, nonce: u64, mixHash: H256, progpow: bool) returns (value: H256)
    ensures value == QuickDifficulty(h, header, nonce, mixHash, progpow)
  {
    hide ShortHash, LongHash;
    if progpow {
      var seed := KeccakShort(header, nonce, EMPTY);
      value := KeccakLong(header, seed, mixHash);
    } else {
      value := QuickHashimoto(h, header, nonce, mixHash);
    }
  }

  /** For both algorithms, the quick check on the mix of the full computation gives exactly its final hash. */
  lemma QuickCheckAgrees(h: Hashes, header: H256, nonce: u64, block: u64, cache: seq<Node>, cdag: CDag, fullSize: nat)
    requires Usable(cache) && Pages(fullSize) > 0
    ensures var full := Hashimoto.Hashimoto(h, cache, fullSize, header, nonce);
            QuickDifficulty(h, header, nonce, full.mixHash, false) == full.value
    ensures var full := ProgpowHash(h, header, nonce, block, cache, cdag);
            QuickDifficulty(h, header, nonce, full.mixHash, true) == full.value
  {
    hide ShortHash, LongHash, MixAfterTurns, MixAfter, Digest, Compress;
  }

  /**
   * Up to epoch 1920 the cast of the word index loses nothing: every part of every item is the node at its own
   * place, inside the dataset. In general it loses nothing for all items exactly when the dataset has at most
   * 2^26 units.
   */
  lemma ProgpowIndexesExact(epoch: nat, offset: nat, part: nat)
    requires offset < DataUnits(epoch) && part < 4
    ensures epoch <= 1920 ==>
              && offset * 64 + part * 16 < TWO_32
              && PartIndex(offset, part) == 4 * offset + part < 2 * DataPages(epoch)
    ensures DataUnits(epoch) <= 0x400_0000 <==>
              forall o, q :: 0 <= o < DataUnits(epoch) && 0 <= q < 4 ==> ToU32(o * 64 + q * 16) == o * 64 + q * 16
  {
    DatasetIndexesFit(epoch);
    if DataUnits(epoch) > 0x400_0000 {
      assert ToU32(0x400_0000 * 64 + 0 * 16) == 0;
    }
  }
}
