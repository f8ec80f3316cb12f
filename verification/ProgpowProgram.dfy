/**
 * The instructions a period generates. Every lane executes the same ones; only the words of the dataset item
 * it loads differ. The properties EIP-1057 asks of the program are proved here for every period.
 */
module ProgpowProgram {
  import opened Numerals
  import opened Words
  import opened ProgpowPlan

  const CACHE_WORDS: nat := 4096
  const LANES: nat := 16

  type Regs = w: seq<u32> | |w| == 32 witness seq(32, _ => 0)

  type CDag = w: seq<u32> | |w| == 4096 witness seq(4096, _ => 0)

  datatype Instr =
    | CacheRead(src: nat, dst: nat, r: u32)
    | Compute(src1: nat, src2: nat, op: u32, dst: nat, r: u32)
    | DagRead(word: nat, dst: nat, r: u32)

  predicate ValidInstr(i: Instr) {
    && i.dst < 32
    && (i.CacheRead? ==> i.src < 32)
    && (i.Compute? ==> i.src1 < 32 && i.src2 < 32)
    && (i.DagRead? ==> i.word < 4)
  }

  function Merge(a: u32, b: u32, r: u32): u32 {
    match r % 4
    case 0 => Add(Mul(a, 33), b)
    case 1 => Mul(Xor(a, b), 33)
    case 2 => Xor(RotateLeft(a, r / 0x1_0000 % 31 + 1), b)
    case _ => Xor(RotateRight(a, r / 0x1_0000 % 31 + 1), b)
  }

  function Math(a: u32, b: u32, r: u32): u32 {
    match r % 11
    case 0 => Add(a, b)
    case 1 => Mul(a, b)
    case 2 => MulHigh(a, b)
    case 3 => if a < b then a else b
    case 4 => RotateLeft(a, b % 32)
    case 5 => RotateRight(a, b % 32)
    case 6 => And(a, b)
    case 7 => Or(a, b)
    case 8 => Xor(a, b)
    case 9 => LeadingZeros(a) + LeadingZeros(b)
    case _ => OnesBound(a); OnesBound(b); CountOnes(a) + CountOnes(b)
  }

  lemma OnesBound(x: u32)
    ensures CountOnes(x) <= 32
  {
    BitwiseBound(x, 0, 32);
  }

  /** Effect of one instruction on a lane's registers; `load` are the four dataset words of the lane. */
  function Exec(i: Instr, regs: Regs, cdag: CDag, load: seq<u32>): Regs
    requires ValidInstr(i) && |load| == 4
  {
    var data :=
      match i
      case CacheRead(src, _, _) => cdag[Mod(regs[src], CACHE_WORDS)]
      case Compute(src1, src2, op, _, _) => Math(regs[src1], regs[src2], op)
      case DagRead(word, _, _) => load[word];
    regs[i.dst := Merge(regs[i.dst], data, i.r)]
  }

  predicate ValidCode(code: seq<Instr>) {
    forall k :: 0 <= k < |code| ==> ValidInstr(code[k])
  }

  function ExecAll(code: seq<Instr>, regs: Regs, cdag: CDag, load: seq<u32>): Regs
    requires ValidCode(code) && |load| == 4
  {
    if code == [] then regs
    else Exec(code[|code| - 1], ExecAll(code[..|code| - 1], regs, cdag, load), cdag, load)
  }

  lemma ExecAppend(code: seq<Instr>, i: Instr, regs: Regs, cdag: CDag, load: seq<u32>)
    requires ValidCode(code) && ValidInstr(i) && |load| == 4
    ensures ValidCode(code + [i])
    ensures ExecAll(code + [i], regs, cdag, load) == Exec(i, ExecAll(code, regs, cdag, load), cdag, load)
  {
    assert (code + [i])[..|code + [i]| - 1] == code;
  }

  // Generation. An emission is the code so far and the generator after it.

  datatype Emission = Emission(rnd: Kiss, code: seq<Instr>)

  function EmitCache(e: Emission, src: nat, dst: nat): Emission {
    var k := NextKiss(e.rnd);
    Emission(k, e.code + [CacheRead(src, dst, Output(k))])
  }

  /** The two sources drawn from one number: the first any register, the second any other one. */
  function Sources(x: u32): (nat, nat) {
    var s := x % (32 * 31);
    var src1, src2 := s % 32, s / 32;
    (src1, if src2 >= src1 then src2 + 1 else src2)
  }

  function EmitMath(e: Emission, dst: nat): Emission {
    var k1 := NextKiss(e.rnd);
    var k2 := NextKiss(k1);
    var k3 := NextKiss(k2);
    var (src1, src2) := Sources(Output(k1));
    Emission(k3, e.code + [Compute(src1, src2, Output(k2), dst, Output(k3))])
  }

  function EmitLoad(e: Emission, word: nat, dst: nat): Emission {
    var k := NextKiss(e.rnd);
    Emission(k, e.code + [DagRead(word, dst, Output(k))])
  }

  /** Destinations used up by the first `i` turns of the main loop. */
  function UsedDsts(i: nat): nat {
    if i <= CNT_CACHE then 2 * i else CNT_CACHE + i
  }

  /** The code of the first `i` turns: a cache read while there are any left, then random math. */
  function Turns(p: Plan, i: nat): Emission
    requires |p.dst| == 32 && |p.src| == 32 && i <= CNT_MATH
  {
    if i == 0 then Emission(p.rnd, [])
    else
      var e := Turns(p, i - 1);
      if i - 1 < CNT_CACHE
      then EmitMath(EmitCache(e, p.src[i - 1], p.dst[2 * i - 2]), p.dst[2 * i - 1])
      else EmitMath(e, p.dst[CNT_CACHE + i - 1])
  }

  /** Then the first `n` of the four dataset loads: into register zero, and into the last three destinations. */
  function Loads(p: Plan, n: nat): Emission
    requires |p.dst| == 32 && |p.src| == 32 && n <= DAG_LOADS
  {
    if n == 0 then Turns(p, CNT_MATH)
    else EmitLoad(Loads(p, n - 1), n - 1, if n == 1 then 0 else p.dst[27 + n])
  }

  function Program(p: Plan): seq<Instr>
    requires |p.dst| == 32 && |p.src| == 32
  {
    Loads(p, DAG_LOADS).code
  }

  // What the program looks like.

  /** Registers drawn from the destination sequence, in order; the first load always goes to register zero. */
  function Targets(code: seq<Instr>): seq<nat> {
    if code == [] then []
    else
      var i := code[|code| - 1];
      Targets(code[..|code| - 1]) + if i.DagRead? && i.word == 0 then [] else [i.dst]
  }

  function CacheSources(code: seq<Instr>): seq<nat> {
    if code == [] then []
    else
      var i := code[|code| - 1];
      CacheSources(code[..|code| - 1]) + if i.CacheRead? then [i.src] else []
  }

  ghost predicate DistinctMath(code: seq<Instr>) {
    forall k :: 0 <= k < |code| && code[k].Compute? ==> code[k].src1 != code[k].src2
  }

  lemma TargetsAppend(code: seq<Instr>, i: Instr)
    ensures Targets(code + [i]) == Targets(code) + if i.DagRead? && i.word == 0 then [] else [i.dst]
    ensures CacheSources(code + [i]) == CacheSources(code) + if i.CacheRead? then [i.src] else []
  {
    assert (code + [i])[..|code + [i]| - 1] == code;
  }

  /** The two sources of a random math instruction are registers, and never the same one. */
  lemma SourcesDiffer(x: u32)
    ensures var (src1, src2) := Sources(x); src1 < 32 && src2 < 32 && src1 != src2
  {
    var s := x % (32 * 31);
    assert s < 992 && s / 32 < 31;
  }

  ghost predicate Shape(code: seq<Instr>, dsts: seq<u32>, srcs: seq<u32>) {
    ValidCode(code) && Targets(code) == dsts && CacheSources(code) == srcs && DistinctMath(code)
  }

  ghost predicate InRange(p: Plan) {
    && |p.dst| == 32 && |p.src| == 32
    && forall k :: 0 <= k < 32 ==> p.dst[k] < 32 && p.src[k] < 32
  }

  lemma CacheShape(e: Emission, dsts: seq<u32>, srcs: seq<u32>, src: u32, dst: u32)
    requires Shape(e.code, dsts, srcs) && src < 32 && dst < 32
    ensures Shape(EmitCache(e, src, dst).code, dsts + [dst], srcs + [src])
  {
    hide NextKiss, Output;
    TargetsAppend(e.code, CacheRead(src, dst, Output(NextKiss(e.rnd))));
  }

  lemma MathShape(e: Emission, dsts: seq<u32>, srcs: seq<u32>, dst: u32)
    requires Shape(e.code, dsts, srcs) && dst < 32
    ensures Shape(EmitMath(e, dst).code, dsts + [dst], srcs)
  {
    hide NextKiss, Output, Sources;
    var k1 := NextKiss(e.rnd);
    var k2 := NextKiss(k1);
    var (src1, src2) := Sources(Output(k1));
    SourcesDiffer(Output(k1));
    TargetsAppend(e.code, Compute(src1, src2, Output(k2), dst, Output(NextKiss(k2))));
  }

  lemma LoadShape(e: Emission, dsts: seq<u32>, srcs: seq<u32>, word: nat, dst: u32)
    requires Shape(e.code, dsts, srcs) && dst < 32 && word < 4
    ensures Shape(EmitLoad(e, word, dst).code, if word == 0 then dsts else dsts + [dst], srcs)
  {
    hide NextKiss, Output;
    TargetsAppend(e.code, DagRead(word, dst, Output(NextKiss(e.rnd))));
  }

  lemma CacheTurnShape(p: Plan, e: Emission, i: nat)
    requires InRange(p) && i < CNT_CACHE && Shape(e.code, p.dst[..2 * i], p.src[..i])
    ensures var e' := EmitMath(EmitCache(e, p.src[i], p.dst[2 * i]), p.dst[2 * i + 1]);
            Shape(e'.code, p.dst[..2 * i + 2], p.src[..i + 1])
  {
    hide EmitCache, EmitMath, Shape;
    var n := 2 * i;
    CacheShape(e, p.dst[..n], p.src[..i], p.src[i], p.dst[n]);
    assert p.dst[..n] + [p.dst[n]] == p.dst[..n + 1];
    assert p.src[..i] + [p.src[i]] == p.src[..i + 1];
    MathShape(EmitCache(e, p.src[i], p.dst[n]), p.dst[..n + 1], p.src[..i + 1], p.dst[n + 1]);
    assert p.dst[..n + 1] + [p.dst[n + 1]] == p.dst[..n + 2];
  }

  lemma MathTurnShape(p: Plan, e: Emission, n: nat)
    requires InRange(p) && n < 32 && Shape(e.code, p.dst[..n], p.src[..CNT_CACHE])
    ensures Shape(EmitMath(e, p.dst[n]).code, p.dst[..n + 1], p.src[..CNT_CACHE])
  {
    hide EmitMath, Shape;
    MathShape(e, p.dst[..n], p.src[..CNT_CACHE], p.dst[n]);
    assert p.dst[..n] + [p.dst[n]] == p.dst[..n + 1];
  }

  lemma {:induction false} TurnsShape(p: Plan, i: nat)
    requires InRange(p) && i <= CNT_MATH
    ensures Shape(Turns(p, i).code, p.dst[..UsedDsts(i)], p.src[..if i < CNT_CACHE then i else CNT_CACHE])
  {
    hide EmitCache, EmitMath, Shape;
    if i == 0 {
      EmptyShape();
    } else {
      TurnsShape(p, i - 1);
      if i - 1 < CNT_CACHE {
        CacheTurnShape(p, Turns(p, i - 1), i - 1);
      } else {
        MathTurnShape(p, Turns(p, i - 1), CNT_CACHE + i - 1);
      }
    }
  }

  lemma EmptyShape()
    ensures Shape([], [], [])
  {
  }

  lemma {:induction false} LoadsShape(p: Plan, n: nat)
    requires InRange(p) && n <= DAG_LOADS
    ensures Shape(Loads(p, n).code, p.dst[..if n == 0 then 29 else 28 + n], p.src[..CNT_CACHE])
  {
    hide EmitLoad, Shape, Turns;
    if n == 0 {
      TurnsShape(p, CNT_MATH);
    } else {
      LoadsShape(p, n - 1);
      var dst := if n == 1 then 0 else p.dst[27 + n];
      LoadShape(Loads(p, n - 1), p.dst[..if n == 1 then 29 else 27 + n], p.src[..CNT_CACHE], n - 1, dst);
      assert n > 1 ==> p.dst[..27 + n] + [p.dst[27 + n]] == p.dst[..28 + n];
    }
  }

  /**
   * For every period: the merges drawn from the destination sequence hit each of the 32 registers exactly once,
   * the eleven cached reads use pairwise different registers, and no math instruction reads a register twice.
   */
  lemma ProgramCoversRegisters(seed: u64)
    ensures var code := Program(PlanOf(seed));
            && ValidCode(code)
            && |Targets(code)| == 32
            && (forall reg :: 0 <= reg < 32 ==> multiset(Targets(code))[reg] == 1)
            && |CacheSources(code)| == CNT_CACHE
            && (forall i, j :: 0 <= i < j < CNT_CACHE ==> CacheSources(code)[i] != CacheSources(code)[j])
            && DistinctMath(code)
  {
    hide PlanOf, Loads;
    var p := PlanOf(seed);
    ShufflesArePermutations(seed);
    PermutationIsBijection(p.dst);
    PermutationIsBijection(p.src);
    LoadsShape(p, DAG_LOADS);
    assert p.dst[..32] == p.dst;
  }
}
