/** Which light cache serves a block: two slots, looked up, swapped and replaced. */
module LightSlots {
  import opened Numerals
  import opened EthashNodes
  import opened EthashSizes
  import opened NodeCache
  import opened Hashimoto
  import opened ProgpowProgram
  import opened Progpow
  import opened SeedHash

  datatype Algorithm = HashimotoHash | ProgpowHashing(cdag: CDag)

  datatype Light = Light(block: u64, cache: seq<Node>, algorithm: Algorithm)

  ghost function NodesOf(h: Hashes, epoch: nat): (cache: seq<Node>)
    ensures |cache| == CacheNodes(epoch) && Usable(cache)
  {
    OddIsUsable(CacheNodes(epoch));
    CacheOf(h, Seed(h, epoch), CacheNodes(epoch))
  }

  /** A light for a block over given nodes: the block it is built for decides the algorithm. */
  function LightOf(h: Hashes, transition: u64, block: u64, cache: seq<Node>): (light: Light)
    requires Usable(cache)
    ensures light.block == block && light.cache == cache
  {
    Light(block, cache, if block >= transition then ProgpowHashing(CDagOf(h, cache)) else HashimotoHash)
  }

  /** A light cache built from nothing for a block. */
  ghost function FreshLight(h: Hashes, transition: u64, block: u64): (light: Light)
    ensures light.block == block && Usable(light.cache)
  {
    LightOf(h, transition, block, NodesOf(h, Epoch(block)))
  }

  /** `Light::compute` for a block: Hashimoto is sized by the block the cache was built for. */
  function ComputeWith(h: Hashes, light: Light, header: H256, nonce: u64, block: u64): ProofOfWork
    requires Usable(light.cache)
  {
    match light.algorithm
    case ProgpowHashing(cdag) => ProgpowHash(h, header, nonce, block, light.cache, cdag)
    case HashimotoHash =>
      PagesPositive(Epoch(light.block));
      Hashimoto.Hashimoto(h, light.cache, MIX_BYTES * DataPages(Epoch(light.block)), header, nonce)
  }

  datatype Slots = Slots(recentEpoch: Option<nat>, recent: Option<Light>, prevEpoch: Option<nat>, prev: Option<Light>)

  const EMPTY_SLOTS: Slots := Slots(None, None, None, None)

  /** Order of optional epochs: none comes before any. */
  predicate Later(a: Option<nat>, b: Option<nat>) {
    a.Some? && (b.None? || a.value > b.value)
  }

  /** The light already held for the epoch of a block, if it may be used, and the slots after a possible swap. */
  function Lookup(s: Slots, transition: u64, block: u64): (Slots, Option<Light>) {
    if block == transition then (s, None)
    else if s.recentEpoch == Some(Epoch(block)) then (s, s.recent)
    else if s.prevEpoch == Some(Epoch(block)) then
      if Later(s.recentEpoch, s.prevEpoch) then (s, None)
      else (Slots(s.prevEpoch, s.prev, s.recentEpoch, s.recent), s.prev)
    else (s, None)
  }

  /** The light that serves a block, given the one that would be built for it. */
  function Serve(s: Slots, transition: u64, block: u64, built: Light): (Slots, Light) {
    match Lookup(s, transition, block)
    case (s', Some(light)) => (s', light)
    case (s', None) => (Slots(Some(Epoch(block)), Some(built), s'.recentEpoch, s'.recent), built)
  }

  /** Slots after serving a sequence of blocks, and the light that served the last one. */
  ghost function SlotsAfter(h: Hashes, transition: u64, blocks: seq<u64>): Slots {
    if blocks == [] then EMPTY_SLOTS
    else
      var last := blocks[|blocks| - 1];
      Serve(SlotsAfter(h, transition, blocks[..|blocks| - 1]), transition, last, FreshLight(h, transition, last)).0
  }

  ghost function ServedBy(h: Hashes, transition: u64, blocks: seq<u64>): Light
    requires blocks != []
  {
    var last := blocks[|blocks| - 1];
    Serve(SlotsAfter(h, transition, blocks[..|blocks| - 1]), transition, last, FreshLight(h, transition, last)).1
  }

  // Every light in a slot was built afresh for some earlier block of the epoch the slot names.

  ghost predicate SlotOk(h: Hashes, transition: u64, served: iset<u64>, epoch: Option<nat>, light: Option<Light>) {
    && epoch.Some? == light.Some?
    && (light.Some? ==>
          && Epoch(light.value.block) == epoch.value
          && light.value.block in served
          && light.value == FreshLight(h, transition, light.value.block))
  }

  ghost predicate SlotsOk(h: Hashes, transition: u64, served: iset<u64>, s: Slots) {
    SlotOk(h, transition, served, s.recentEpoch, s.recent) && SlotOk(h, transition, served, s.prevEpoch, s.prev)
  }

  ghost function BlocksOf(blocks: seq<u64>): iset<u64> {
    iset b | b in blocks
  }

  lemma ServeKeeps(h: Hashes, transition: u64, served: iset<u64>, s: Slots, block: u64)
    requires SlotsOk(h, transition, served, s)
    ensures var (s', light) := Serve(s, transition, block, FreshLight(h, transition, block));
            && SlotsOk(h, transition, served + iset{block}, s')
            && Epoch(light.block) == Epoch(block)
            && light.block in served + iset{block}
            && light == FreshLight(h, transition, light.block)
  {
    hide FreshLight, Epoch;
  }

  lemma {:induction false} SlotsAfterOk(h: Hashes, transition: u64, blocks: seq<u64>)
    ensures SlotsOk(h, transition, BlocksOf(blocks), SlotsAfter(h, transition, blocks))
  {
    hide FreshLight, Serve;
    if blocks != [] {
      var before, last := blocks[..|blocks| - 1], blocks[|blocks| - 1];
      SlotsAfterOk(h, transition, before);
      ServeKeeps(h, transition, BlocksOf(before), SlotsAfter(h, transition, before), last);
      assert BlocksOf(blocks) == BlocksOf(before) + iset{last};
    }
  }

  /** No epoch has blocks asked for on both sides of the transition. */
  ghost predicate NoStraddle(transition: u64, blocks: iset<u64>) {
    forall b, c :: b in blocks && c in blocks && Epoch(b) == Epoch(c) ==> (b < transition <==> c < transition)
  }

  /** Lights of one epoch on one side of the transition compute the same. */
  lemma SameSideSameResult(h: Hashes, transition: u64, b: u64, block: u64, header: H256, nonce: u64)
    requires Epoch(b) == Epoch(block) && (b < transition <==> block < transition)
    ensures ComputeWith(h, FreshLight(h, transition, b), header, nonce, block)
            == ComputeWith(h, FreshLight(h, transition, block), header, nonce, block)
  {
    hide ProgpowHash, Hashimoto.Hashimoto, NodesOf, CDagOf;
  }

  /**
   * What a block's header and nonce hash to: ProgPoW from the transition on and Hashimoto before it, over the cache
   * whose seed is the zero hash hashed once for every epoch of 30000 blocks.
   */
  ghost function Answer(h: Hashes, transition: u64, block: u64, header: H256, nonce: u64): ProofOfWork {
    var epoch := block / 30000;
    OddIsUsable(CacheNodes(epoch));
    PagesPositive(epoch);
    var nodes := CacheOf(h, Iterate(h, ZERO, epoch), CacheNodes(epoch));
    if block >= transition then ProgpowHash(h, header, nonce, block, nodes, CDagOf(h, nodes))
    else Hashimoto.Hashimoto(h, nodes, 128 * DataPages(epoch), header, nonce)
  }

  /** From the transition on the answer is that of ProgPoW over the nodes of the epoch, before it that of Hashimoto. */
  lemma AnswerIs(h: Hashes, transition: u64, block: u64, header: H256, nonce: u64, nodes: seq<Node>)
    requires Usable(nodes) && Pages(128 * DataPages(block / 30000)) > 0
    requires nodes == CacheOf(h, Iterate(h, ZERO, block / 30000), CacheNodes(block / 30000))
    ensures block >= transition ==>
              Answer(h, transition, block, header, nonce)
              == ProgpowHash(h, header, nonce, block, nodes, CDagOf(h, nodes))
    ensures block < transition ==>
              Answer(h, transition, block, header, nonce)
              == Hashimoto.Hashimoto(h, nodes, 128 * DataPages(block / 30000), header, nonce)
  {
    hide ProgpowHash, Hashimoto.Hashimoto, CDagOf, CacheOf, Iterate, CacheNodes, DataPages;
  }

  /** A light built from nothing for a block gives the answer for it. */
  lemma FreshAnswers(h: Hashes, transition: u64, block: u64, header: H256, nonce: u64)
    ensures ComputeWith(h, FreshLight(h, transition, block), header, nonce, block)
            == Answer(h, transition, block, header, nonce)
  {
    hide ProgpowHash, Hashimoto.Hashimoto, CDagOf, CacheOf, Iterate, CacheNodes, DataPages;
  }

  /**
   * For any sequence of blocks in any order: if no epoch straddles the transition, the light that serves the
   * last one computes what a freshly built one would.
   */
  lemma ServedLikeFresh(h: Hashes, transition: u64, blocks: seq<u64>, header: H256, nonce: u64)
    requires blocks != [] && NoStraddle(transition, BlocksOf(blocks))
    ensures var block := blocks[|blocks| - 1];
            var light := ServedBy(h, transition, blocks);
            && Usable(light.cache)
            && ComputeWith(h, light, header, nonce, block) == Answer(h, transition, block, header, nonce)
  {
    hide FreshLight, ComputeWith, Serve, Epoch, Answer;
    FreshAnswers(h, transition, blocks[|blocks| - 1], header, nonce);
    var before, block := blocks[..|blocks| - 1], blocks[|blocks| - 1];
    SlotsAfterOk(h, transition, before);
    ServeKeeps(h, transition, BlocksOf(before), SlotsAfter(h, transition, before), block);
    var light := ServedBy(h, transition, blocks);
    assert light.block in BlocksOf(blocks) && block in BlocksOf(blocks);
    SameSideSameResult(h, transition, light.block, block, header, nonce);
  }

  ghost predicate From(queried: iset<u64>, blocks: seq<u64>) {
    forall k :: 0 <= k < |blocks| ==> blocks[k] in queried
  }

  ghost predicate RightAlgorithm(transition: u64, light: Light, block: u64) {
    light.algorithm.ProgpowHashing? <==> block >= transition
  }

  /** A later block of the epoch, asked for first, leaves a ProgPoW light that then serves the earlier block. */
  lemma StraddleServesWrong(h: Hashes, transition: u64, b: u64, c: u64)
    requires b < transition <= c && Epoch(b) == Epoch(c)
    ensures !RightAlgorithm(transition, ServedBy(h, transition, [c, b]), b)
  {
    hide NodesOf, CDagOf, Epoch;
    var blocks := [c, b];
    assert blocks[..1] == [c] && [c][..0] == [];
    var light := FreshLight(h, transition, c);
    assert SlotsAfter(h, transition, [c]) == Slots(Some(Epoch(c)), Some(light), None, None);
  }

  /**
   * Whatever blocks are asked for, in whatever order and number: every one is served by a light with the right
   * algorithm if and only if no epoch straddles the transition.
   */
  lemma RightAlgorithmIffNoStraddle(h: Hashes, transition: u64, queried: iset<u64>)
    ensures (forall blocks: seq<u64> :: blocks != [] && From(queried, blocks) ==>
               RightAlgorithm(transition, ServedBy(h, transition, blocks), blocks[|blocks| - 1]))
            <==> NoStraddle(transition, queried)
  {
    hide ServedBy, Epoch;
    if NoStraddle(transition, queried) {
      forall blocks: seq<u64> | blocks != [] && From(queried, blocks)
        ensures RightAlgorithm(transition, ServedBy(h, transition, blocks), blocks[|blocks| - 1])
      {
        assert BlocksOf(blocks) <= queried;
        NoStraddleServesRight(h, transition, blocks);
      }
    } else {
      var b, c :| b in queried && c in queried && Epoch(b) == Epoch(c) && b < transition <= c;
      StraddleServesWrong(h, transition, b, c);
      assert From(queried, [c, b]);
    }
  }

  lemma NoStraddleServesRight(h: Hashes, transition: u64, blocks: seq<u64>)
    requires blocks != [] && NoStraddle(transition, BlocksOf(blocks))
    ensures RightAlgorithm(transition, ServedBy(h, transition, blocks), blocks[|blocks| - 1])
  {
    hide Serve, Epoch, NodesOf, CDagOf;
    var before, block := blocks[..|blocks| - 1], blocks[|blocks| - 1];
    SlotsAfterOk(h, transition, before);
    ServeKeeps(h, transition, BlocksOf(before), SlotsAfter(h, transition, before), block);
    var light := ServedBy(h, transition, blocks);
    assert light.block in BlocksOf(blocks) && block in BlocksOf(blocks);
  }

  // Blocks in order. The forced rebuild at the transition block then does more than the sides of the transition tell.

  ghost predicate InOrder(blocks: seq<u64>) {
    forall i, j :: 0 <= i < j < |blocks| ==> blocks[i] <= blocks[j]
  }

  /** An epoch is asked for on both sides of the transition, and the transition block itself is not asked for. */
  ghost predicate Skips(transition: u64, blocks: seq<u64>) {
    transition !in blocks &&
    exists b, c :: b in blocks && c in blocks && Epoch(b) == Epoch(c) && b < transition < c
  }

  /** After blocks in order, the newer slot is for the last one's epoch, and the older one is for no later epoch. */
  ghost predicate Ordered(blocks: seq<u64>, s: Slots) {
    blocks != [] ==>
      && s.recentEpoch == Some(Epoch(blocks[|blocks| - 1])) && s.recent.Some?
      && (s.prevEpoch.Some? ==> s.prevEpoch.value <= s.recentEpoch.value)
  }

  /** The block the newer light was built for: the transition block if that was reached, or the epoch's first one. */
  ghost predicate BuiltFor(transition: u64, blocks: seq<u64>, light: Light) {
    && light.block in blocks
    && Epoch(light.block) == Epoch(blocks[|blocks| - 1])
    && (light.block != transition ==> forall b :: b in blocks && Epoch(b) == Epoch(light.block) ==> light.block <= b)
    && (transition in blocks && Epoch(transition) == Epoch(light.block) ==> light.block == transition)
  }

  lemma EpochMonotone(b: u64, c: u64)
    requires b <= c
    ensures Epoch(b) <= Epoch(c)
  {
  }

  lemma ServeInOrder(h: Hashes, transition: u64, before: seq<u64>, block: u64, s: Slots)
    requires InOrder(before + [block]) && Ordered(before, s) && (before == [] ==> s == EMPTY_SLOTS)
    requires before != [] ==> BuiltFor(transition, before, s.recent.value)
    ensures var (s', light) := Serve(s, transition, block, FreshLight(h, transition, block));
            Ordered(before + [block], s') && s'.recent == Some(light) && BuiltFor(transition, before + [block], light)
  {
    hide FreshLight, Epoch;
    var blocks := before + [block];
    if before != [] {
      var last := before[|before| - 1];
      assert blocks[|before| - 1] == last && blocks[|before|] == block;
      EpochMonotone(last, block);
      forall b | b in before
        ensures b <= last && Epoch(b) <= Epoch(last)
      {
        var i :| 0 <= i < |before| && before[i] == b;
        assert blocks[i] == b;
        EpochMonotone(b, last);
      }
    }
  }

  lemma {:induction false} SlotsInOrder(h: Hashes, transition: u64, blocks: seq<u64>)
    requires InOrder(blocks)
    ensures Ordered(blocks, SlotsAfter(h, transition, blocks))
    ensures blocks != [] ==>
              var light := ServedBy(h, transition, blocks);
              SlotsAfter(h, transition, blocks).recent == Some(light) && BuiltFor(transition, blocks, light)
  {
    hide Serve, FreshLight, Ordered, BuiltFor;
    if blocks != [] {
      var before, block := blocks[..|blocks| - 1], blocks[|blocks| - 1];
      SlotsInOrder(h, transition, before);
      assert before + [block] == blocks;
      ServeInOrder(h, transition, before, block, SlotsAfter(h, transition, before));
    } else {
      OrderedNothing();
    }
  }

  lemma OrderedNothing()
    ensures Ordered([], EMPTY_SLOTS)
  {
  }

  ghost predicate AllRight(h: Hashes, transition: u64, blocks: seq<u64>) {
    forall n :: 0 < n <= |blocks| ==> RightAlgorithm(transition, ServedBy(h, transition, blocks[..n]), blocks[n - 1])
  }

  lemma LightDecides(h: Hashes, transition: u64, blocks: seq<u64>)
    requires blocks != []
    ensures var light := ServedBy(h, transition, blocks);
            light.algorithm.ProgpowHashing? <==> light.block >= transition
  {
    hide Serve, NodesOf, CDagOf, Epoch;
    var before, block := blocks[..|blocks| - 1], blocks[|blocks| - 1];
    SlotsAfterOk(h, transition, before);
    ServeKeeps(h, transition, BlocksOf(before), SlotsAfter(h, transition, before), block);
  }

  lemma RightWithoutSkip(h: Hashes, transition: u64, blocks: seq<u64>, n: nat)
    requires InOrder(blocks) && !Skips(transition, blocks) && 0 < n <= |blocks|
    ensures RightAlgorithm(transition, ServedBy(h, transition, blocks[..n]), blocks[n - 1])
  {
    hide ServedBy, SlotsAfter, Epoch;
    var some, block := blocks[..n], blocks[n - 1];
    SlotsInOrder(h, transition, some);
    LightDecides(h, transition, some);
    var light := ServedBy(h, transition, some);
    assert light.block in blocks && block in blocks && block in some;
    if light.block < transition <= block {
      if transition in blocks {
        TransitionBetween(transition, blocks, light.block, n);
      }
    }
  }

  /** A transition block asked for is among the first `n`, if these reach it; and lies in the epoch it divides. */
  lemma TransitionBetween(transition: u64, blocks: seq<u64>, b: u64, n: nat)
    requires InOrder(blocks) && 0 < n <= |blocks| && transition in blocks
    requires b < transition <= blocks[n - 1] && Epoch(b) == Epoch(blocks[n - 1])
    ensures Epoch(transition) == Epoch(b)
    ensures transition in blocks[..n] || blocks[n - 1] == transition
  {
    EpochMonotone(b, transition);
    EpochMonotone(transition, blocks[n - 1]);
    hide Epoch;
    var i :| 0 <= i < |blocks| && blocks[i] == transition;
    if i >= n {
      assert blocks[n - 1] <= blocks[i];
    } else {
      assert blocks[..n][i] == transition;
    }
  }

  lemma WrongWithSkip(h: Hashes, transition: u64, blocks: seq<u64>, i: nat, j: nat)
    requires InOrder(blocks) && transition !in blocks && i < |blocks| && j < |blocks|
    requires Epoch(blocks[i]) == Epoch(blocks[j]) && blocks[i] < transition < blocks[j]
    ensures !RightAlgorithm(transition, ServedBy(h, transition, blocks[..j + 1]), blocks[j])
  {
    hide ServedBy, SlotsAfter, Epoch;
    var some := blocks[..j + 1];
    assert i < j;
    assert some[i] == blocks[i] && some[|some| - 1] == blocks[j];
    SlotsInOrder(h, transition, some);
    LightDecides(h, transition, some);
  }

  /**
   * For blocks asked for in order, every one of them is served by a light with the right algorithm if and only
   * if no epoch is asked for on both sides of the transition with the transition block itself skipped.
   */
  lemma InOrderRightIffNoSkip(h: Hashes, transition: u64, blocks: seq<u64>)
    requires InOrder(blocks)
    ensures AllRight(h, transition, blocks) <==> !Skips(transition, blocks)
  {
    hide ServedBy, Epoch, RightAlgorithm;
    if Skips(transition, blocks) {
      var b, c :| b in blocks && c in blocks && Epoch(b) == Epoch(c) && b < transition < c;
      var i :| 0 <= i < |blocks| && blocks[i] == b;
      var j :| 0 <= j < |blocks| && blocks[j] == c;
      WrongWithSkip(h, transition, blocks, i, j);
      assert blocks[(j + 1) - 1] == blocks[j];
    } else {
      forall n | 0 < n <= |blocks|
        ensures RightAlgorithm(transition, ServedBy(h, transition, blocks[..n]), blocks[n - 1])
      {
        RightWithoutSkip(h, transition, blocks, n);
      }
    }
  }
}
