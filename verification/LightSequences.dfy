/**
 * Exactly when one given sequence of blocks, in any order, is served with the right algorithms. Only the epoch of the
 * transition can go wrong, and only where its light outlives a change of sides.
 */
module LightSequences {
  import opened Numerals
  import opened EthashNodes
  import opened EthashSizes
  import opened Progpow
  import opened LightSlots

  /** Blocks `i` and `j` are in an epoch, and none between them is. */
  ghost predicate Consecutive(epoch: nat, blocks: seq<u64>, i: nat, j: nat) {
    && i < j < |blocks| && Epoch(blocks[i]) == Epoch(blocks[j]) == epoch
    && forall k :: i < k < j ==> Epoch(blocks[k]) != epoch
  }

  /** Between two blocks a later epoch is asked for, or two different ones: the light of the first is given up. */
  ghost predicate GivenUp(blocks: seq<u64>, i: nat, j: nat)
    requires j < |blocks|
  {
    || (exists k :: i < k < j && Epoch(blocks[k]) > Epoch(blocks[j]))
    || (exists k, l :: i < k < l < j && Epoch(blocks[k]) != Epoch(blocks[l]))
  }

  /** Whenever the transition's epoch is next asked for on the other side, its light is built anew. */
  ghost predicate Renewed(transition: u64, blocks: seq<u64>) {
    forall i: nat, j: nat ::
      Consecutive(Epoch(transition), blocks, i, j) && (blocks[i] < transition) != (blocks[j] < transition) ==>
        blocks[j] == transition || GivenUp(blocks, i, j)
  }

  /** Where an epoch was last asked for; minus one if it was not. */
  ghost function LastAt(epoch: nat, blocks: seq<u64>): (i: int)
    ensures -1 <= i < |blocks|
    ensures i >= 0 ==> Epoch(blocks[i]) == epoch
    ensures forall k :: i < k < |blocks| ==> Epoch(blocks[k]) != epoch
  {
    if blocks == [] then -1
    else if Epoch(blocks[|blocks| - 1]) == epoch then |blocks| - 1
    else LastAt(epoch, blocks[..|blocks| - 1])
  }

  /** All blocks from `i` on are in one epoch. */
  ghost predicate Alike(blocks: seq<u64>, i: nat) {
    forall k, l :: i <= k < l < |blocks| ==> Epoch(blocks[k]) == Epoch(blocks[l])
  }

  /**
   * What the slots know about the transition's epoch: the newer one always serves the last block, and the older one
   * holds the light that last served that epoch exactly as long as only one other epoch has been asked for since.
   */
  ghost predicate Remembers(h: Hashes, transition: u64, blocks: seq<u64>, s: Slots)
    requires blocks != []
  {
    var epoch, i := Epoch(transition), LastAt(Epoch(transition), blocks);
    && s.recentEpoch == Some(Epoch(blocks[|blocks| - 1])) && s.recent == Some(ServedBy(h, transition, blocks))
    && (Epoch(blocks[|blocks| - 1]) != epoch ==>
          && (s.prevEpoch == Some(epoch) <==> i >= 0 && Alike(blocks, i + 1))
          && (s.prevEpoch == Some(epoch) ==> s.prev == Some(ServedBy(h, transition, blocks[..i + 1]))))
  }

  lemma LastOf(epoch: nat, before: seq<u64>, block: u64)
    ensures LastAt(epoch, before + [block]) == if Epoch(block) == epoch then |before| else LastAt(epoch, before)
  {
    hide Epoch;
    assert (before + [block])[..|before|] == before;
  }

  lemma AlikeOf(before: seq<u64>, block: u64, i: nat)
    requires i < |before|
    ensures Alike(before + [block], i) <==> Alike(before, i) && Epoch(before[|before| - 1]) == Epoch(block)
  {
    hide Epoch;
    var blocks := before + [block];
    if Alike(before, i) && Epoch(before[|before| - 1]) == Epoch(block) {
      forall k, l | i <= k < l < |blocks|
        ensures Epoch(blocks[k]) == Epoch(blocks[l])
      {
        assert k < |before| - 1 ==> Epoch(before[k]) == Epoch(before[|before| - 1]);
      }
    }
    if Alike(blocks, i) {
      assert Epoch(blocks[|before| - 1]) == Epoch(blocks[|before|]);
      forall k, l | i <= k < l < |before|
        ensures Epoch(before[k]) == Epoch(before[l])
      {
        assert Epoch(blocks[k]) == Epoch(blocks[l]);
      }
    }
  }

  lemma ServeOne(h: Hashes, transition: u64, before: seq<u64>, block: u64)
    ensures var s := SlotsAfter(h, transition, before);
            (SlotsAfter(h, transition, before + [block]), ServedBy(h, transition, before + [block]))
            == Serve(s, transition, block, FreshLight(h, transition, block))
  {
    hide Serve, FreshLight;
    assert (before + [block])[..|before|] == before;
  }

  ghost predicate Paired(s: Slots) {
    s.recentEpoch.Some? == s.recent.Some? && s.prevEpoch.Some? == s.prev.Some?
  }

  /** Serving puts the block's light in the newer slot, and what was there into the older one unless it is the same. */
  lemma ServeShape(s: Slots, transition: u64, block: u64, built: Light)
    requires Paired(s)
    ensures var (s', light) := Serve(s, transition, block, built);
            && s'.recentEpoch == Some(Epoch(block)) && s'.recent == Some(light)
            && (if s.recentEpoch == Some(Epoch(block)) && block != transition then s' == s
                else s'.prevEpoch == s.recentEpoch && s'.prev == s.recent)
  {
    hide Epoch;
  }

  lemma SlotsPaired(h: Hashes, transition: u64, blocks: seq<u64>)
    ensures Paired(SlotsAfter(h, transition, blocks))
  {
    hide FreshLight, Epoch;
    SlotsAfterOk(h, transition, blocks);
    hide SlotsAfter;
  }

  lemma LastIsLast(epoch: nat, blocks: seq<u64>)
    requires blocks != []
    ensures Epoch(blocks[|blocks| - 1]) == epoch <==> LastAt(epoch, blocks) == |blocks| - 1
  {
    hide Epoch;
  }

  /** After a block of another epoch: what is known about the transition's epoch from what was known before. */
  lemma AlikeNext(transition: u64, before: seq<u64>, block: u64)
    requires before != [] && Epoch(block) != Epoch(transition)
    ensures var i, last := LastAt(Epoch(transition), before), Epoch(before[|before| - 1]);
            && LastAt(Epoch(transition), before + [block]) == i
            && (last == Epoch(transition) <==> i == |before| - 1)
            && (i >= 0 ==> (Alike(before + [block], i + 1) <==>
                              i == |before| - 1 || (Alike(before, i + 1) && last == Epoch(block))))
  {
    hide Epoch, Alike, LastAt;
    var i := LastAt(Epoch(transition), before);
    LastOf(Epoch(transition), before, block);
    LastIsLast(Epoch(transition), before);
    if 0 <= i < |before| - 1 {
      AlikeOf(before, block, i + 1);
    } else if i >= 0 {
      OneIsAlike(before + [block], i + 1);
    }
  }

  lemma RemembersNext(h: Hashes, transition: u64, before: seq<u64>, block: u64)
    requires before != [] && Remembers(h, transition, before, SlotsAfter(h, transition, before))
    ensures Remembers(h, transition, before + [block], SlotsAfter(h, transition, before + [block]))
  {
    hide Epoch, FreshLight, SlotsAfter, ServedBy, Alike, LastAt, Serve, Paired;
    var blocks, i := before + [block], LastAt(Epoch(transition), before);
    SlotsPaired(h, transition, before);
    ServeOne(h, transition, before, block);
    ServeShape(SlotsAfter(h, transition, before), transition, block, FreshLight(h, transition, block));
    assert blocks[|blocks| - 1] == block;
    if Epoch(block) != Epoch(transition) {
      AlikeNext(transition, before, block);
      if i >= 0 {
        assert blocks[..i + 1] == before[..i + 1];
        assert i == |before| - 1 ==> before[..i + 1] == before;
      }
    }
  }

  lemma OneIsAlike(blocks: seq<u64>, i: nat)
    requires i + 1 >= |blocks|
    ensures Alike(blocks, i)
  {
  }

  lemma RemembersFirst(h: Hashes, transition: u64, block: u64)
    ensures Remembers(h, transition, [block], SlotsAfter(h, transition, [block]))
  {
    hide Epoch, FreshLight, SlotsAfter, ServedBy, Alike, Serve;
    NoSlots(h, transition);
    ServeOne(h, transition, [], block);
    ServeShape(EMPTY_SLOTS, transition, block, FreshLight(h, transition, block));
    assert [] + [block] == [block];
    LastOf(Epoch(transition), [], block);
  }

  lemma {:induction false} SlotsRemember(h: Hashes, transition: u64, blocks: seq<u64>)
    requires blocks != []
    ensures Remembers(h, transition, blocks, SlotsAfter(h, transition, blocks))
  {
    hide Remembers, SlotsAfter;
    var n := |blocks| - 1;
    if n == 0 {
      RemembersFirst(h, transition, blocks[0]);
      assert blocks == [blocks[0]];
    } else {
      SlotsRemember(h, transition, blocks[..n]);
      RemembersNext(h, transition, blocks[..n], blocks[n]);
      assert blocks[..n] + [blocks[n]] == blocks;
    }
  }

  lemma GivenUpIff(blocks: seq<u64>, i: nat, j: nat)
    requires i + 1 < j < |blocks|
    ensures GivenUp(blocks, i, j) <==> !Alike(blocks[..j], i + 1) || Epoch(blocks[j - 1]) > Epoch(blocks[j])
  {
    hide Epoch;
    var some := blocks[..j];
    if Alike(some, i + 1) {
      forall k | i < k < j
        ensures Epoch(blocks[k]) == Epoch(blocks[j - 1])
      {
        assert k < j - 1 ==> Epoch(some[k]) == Epoch(some[j - 1]);
      }
      assert i < j - 1 < j;
    } else {
      var k, l :| i + 1 <= k < l < j && Epoch(some[k]) != Epoch(some[l]);
      assert Epoch(blocks[k]) != Epoch(blocks[l]);
    }
  }

  /** The light for a block of the transition's epoch: the last one, unless that is given up or forced to be rebuilt. */
  lemma ServedAgain(h: Hashes, transition: u64, blocks: seq<u64>, j: nat)
    requires j < |blocks| && Epoch(blocks[j]) == Epoch(transition)
    ensures var i := LastAt(Epoch(transition), blocks[..j]);
            ServedBy(h, transition, blocks[..j + 1]) ==
            if blocks[j] == transition || i < 0 || GivenUp(blocks, i, j) then FreshLight(h, transition, blocks[j])
            else ServedBy(h, transition, blocks[..i + 1])
  {
    hide Epoch, FreshLight, SlotsAfter, ServedBy, Alike, GivenUp, LastAt;
    var before, i := blocks[..j], LastAt(Epoch(transition), blocks[..j]);
    assert before + [blocks[j]] == blocks[..j + 1];
    ServeOne(h, transition, before, blocks[j]);
    if before == [] {
      NoSlots(h, transition);
    } else {
      SlotsRemember(h, transition, before);
      if i >= 0 {
        assert before[..i + 1] == blocks[..i + 1];
        if i + 1 < j {
          GivenUpIff(blocks, i, j);
        } else {
          NothingBetween(blocks, i, j);
          assert before[..i + 1] == before;
        }
      }
    }
  }

  lemma NoSlots(h: Hashes, transition: u64)
    ensures SlotsAfter(h, transition, []) == EMPTY_SLOTS
  {
  }

  lemma NothingBetween(blocks: seq<u64>, i: nat, j: nat)
    requires i + 1 == j < |blocks|
    ensures !GivenUp(blocks, i, j)
  {
  }

  lemma LastIsConsecutive(epoch: nat, blocks: seq<u64>, j: nat)
    requires j < |blocks| && Epoch(blocks[j]) == epoch && LastAt(epoch, blocks[..j]) >= 0
    ensures Consecutive(epoch, blocks, LastAt(epoch, blocks[..j]), j)
  {
    hide Epoch, LastAt;
    var i := LastAt(epoch, blocks[..j]);
    forall k | i < k < j
      ensures Epoch(blocks[k]) != epoch
    {
      assert Epoch(blocks[..j][k]) != epoch;
    }
  }

  lemma ConsecutiveIsLast(epoch: nat, blocks: seq<u64>, i: nat, j: nat)
    requires Consecutive(epoch, blocks, i, j)
    ensures LastAt(epoch, blocks[..j]) == i
  {
    hide Epoch, LastAt;
    var l := LastAt(epoch, blocks[..j]);
    assert Epoch(blocks[..j][i]) == epoch;
    assert l >= 0 ==> Epoch(blocks[l]) == epoch;
  }

  lemma FreshIsRight(h: Hashes, transition: u64, block: u64)
    ensures RightAlgorithm(transition, FreshLight(h, transition, block), block)
  {
    hide NodesOf, CDagOf;
  }

  /** In every other epoch all blocks are on one side, so that any light of it has the right algorithm. */
  lemma OtherEpochIsRight(h: Hashes, transition: u64, blocks: seq<u64>)
    requires blocks != [] && Epoch(blocks[|blocks| - 1]) != Epoch(transition)
    ensures RightAlgorithm(transition, ServedBy(h, transition, blocks), blocks[|blocks| - 1])
  {
    hide Serve, FreshLight, Epoch;
    var before, block := blocks[..|blocks| - 1], blocks[|blocks| - 1];
    SlotsAfterOk(h, transition, before);
    ServeKeeps(h, transition, BlocksOf(before), SlotsAfter(h, transition, before), block);
    LightDecides(h, transition, blocks);
    var b := ServedBy(h, transition, blocks).block;
    if b < transition <= block {
      EpochMonotone(b, transition);
      EpochMonotone(transition, block);
    } else if block < transition <= b {
      EpochMonotone(block, transition);
      EpochMonotone(transition, b);
    }
  }

  lemma {:induction false} RenewedIsRight(h: Hashes, transition: u64, blocks: seq<u64>, j: nat)
    requires Renewed(transition, blocks) && j < |blocks|
    ensures RightAlgorithm(transition, ServedBy(h, transition, blocks[..j + 1]), blocks[j])
  {
    hide Epoch, FreshLight, ServedBy, GivenUp, LastAt, Consecutive;
    var epoch := Epoch(transition);
    if Epoch(blocks[j]) != epoch {
      OtherEpochIsRight(h, transition, blocks[..j + 1]);
    } else {
      ServedAgain(h, transition, blocks, j);
      FreshIsRight(h, transition, blocks[j]);
      var i := LastAt(epoch, blocks[..j]);
      if i >= 0 {
        LastIsConsecutive(epoch, blocks, j);
        RenewedIsRight(h, transition, blocks, i);
      }
    }
  }

  /**
   * For one sequence of blocks in any order: every one of them is served by a light with the right algorithm if and
   * only if, whenever the transition's epoch is next asked for on the other side, that is at the transition block,
   * or a later epoch or two different ones have been asked for in between.
   */
  lemma RightIffRenewed(h: Hashes, transition: u64, blocks: seq<u64>)
    ensures AllRight(h, transition, blocks) <==> Renewed(transition, blocks)
  {
    hide Epoch, FreshLight, ServedBy, GivenUp, LastAt;
    if Renewed(transition, blocks) {
      forall n | 0 < n <= |blocks|
        ensures RightAlgorithm(transition, ServedBy(h, transition, blocks[..n]), blocks[n - 1])
      {
        RenewedIsRight(h, transition, blocks, n - 1);
      }
    } else {
      var i: nat, j: nat :|
        Consecutive(Epoch(transition), blocks, i, j) && (blocks[i] < transition) != (blocks[j] < transition)
        && blocks[j] != transition && !GivenUp(blocks, i, j);
      ConsecutiveIsLast(Epoch(transition), blocks, i, j);
      ServedAgain(h, transition, blocks, j);
      assert blocks[(i + 1) - 1] == blocks[i] && blocks[(j + 1) - 1] == blocks[j];
    }
  }
}
