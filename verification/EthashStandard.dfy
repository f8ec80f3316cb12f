/**
 * Cache, dataset and Hashimoto as sections J.3 to J.5 of the Ethereum Yellow Paper state them, by the values that
 * follow one another and word by word. Whatever values meet the equations, the definitions agree with the last ones.
 */
module EthashStandard {
  import opened Numerals
  import opened Words
  import opened WordBits
  import opened EthashNodes
  import opened NodeCache
  import opened Hashimoto

  /** FNV: the product with the prime, modulo 2^32, and each bit of it changed where the second word has a one. */
  lemma FnvIs(x: u32, y: u32, i: nat)
    requires i < 32
    ensures BitAt(Fnv(x, y), i) == (BitAt(x * 0x01000193 % 0x1_0000_0000, i) + BitAt(y, i)) % 2
  {
    hide BitAt, Xor;
    BitwiseIsBitByBit(Mul(x, FNV_PRIME), y, i);
  }

  lemma NodesWordByWord(a: Node, b: Node, w: nat)
    requires w < 16
    ensures FnvNodes(a, b)[w] == Fnv(a[w], b[w]) && XorNodes(a, b)[w] == Xor(a[w], b[w])
  {
  }

  // The cache.

  ghost predicate FirstGeneration(h: Hashes, seed: H256, nodes: seq<Node>) {
    forall i :: 0 <= i < |nodes| ==> nodes[i] == h.keccak512(if i == 0 then seed else nodes[i - 1])
  }

  /** The node before, around the end, as it is when the turn of node `i` has come. */
  ghost function Neighbour(before: seq<Node>, after: seq<Node>, i: nat): Node
    requires |before| == |after| && i < |before|
  {
    if i == 0 then before[|before| - 1] else after[i - 1]
  }

  /** The node that the first word of node `i` points to, as it is by then. */
  ghost function Pointed(before: seq<Node>, after: seq<Node>, i: nat): Node
    requires |before| == |after| && i < |before|
  {
    var j := before[i][0] % |before|;
    if j < i then after[j] else before[j]
  }

  ghost predicate NextGeneration(h: Hashes, before: seq<Node>, after: seq<Node>)
    requires |before| == |after|
  {
    forall i :: 0 <= i < |before| ==>
      after[i] == h.keccak512(XorNodes(Neighbour(before, after, i), Pointed(before, after, i)))
  }

  lemma {:induction false} FirstNodes(h: Hashes, seed: H256, nodes: seq<Node>, i: nat)
    requires FirstGeneration(h, seed, nodes) && i < |nodes|
    ensures nodes[i] == NodeAt(h, seed, |nodes|, 0, i)
  {
    if i == 0 {
      assert nodes[0] == h.keccak512(seed);
    } else {
      FirstNodes(h, seed, nodes, i - 1);
      assert nodes[i] == h.keccak512(nodes[i - 1]);
    }
  }

  lemma {:induction false} NextNodes(h: Hashes, seed: H256, before: seq<Node>, after: seq<Node>, round: nat, i: nat)
    requires |before| == |after| > 0 && NextGeneration(h, before, after) && i < |before|
    requires forall k :: 0 <= k < |before| ==> before[k] == NodeAt(h, seed, |before|, round, k)
    ensures after[i] == NodeAt(h, seed, |before|, round + 1, i)
  {
    hide XorNodes;
    var n := |before|;
    if i > 0 {
      NextNodes(h, seed, before, after, round, i - 1);
    }
    var j := before[i][0] % n;
    if j < i {
      NextNodes(h, seed, before, after, round, j);
    }
    RecurrenceIs(h, seed, n, round, i);
  }

  lemma RecurrenceIs(h: Hashes, seed: H256, n: nat, round: nat, i: nat)
    requires i < n
    ensures var j := NodeAt(h, seed, n, round, i)[0] % n;
            var neighbour := if i == 0 then NodeAt(h, seed, n, round, n - 1) else NodeAt(h, seed, n, round + 1, i - 1);
            NodeAt(h, seed, n, round + 1, i) == h.keccak512(
              XorNodes(neighbour, if j < i then NodeAt(h, seed, n, round + 1, j) else NodeAt(h, seed, n, round, j)))
  {
    hide XorNodes;
  }

  /** The cache is the third generation after the chain of hashes from the seed. */
  lemma CacheIsThirdGeneration(h: Hashes, seed: H256, g0: seq<Node>, g1: seq<Node>, g2: seq<Node>, g3: seq<Node>)
    requires |g0| == |g1| == |g2| == |g3| > 0 && FirstGeneration(h, seed, g0)
    requires NextGeneration(h, g0, g1) && NextGeneration(h, g1, g2) && NextGeneration(h, g2, g3)
    ensures CacheOf(h, seed, |g0|) == g3
  {
    hide NodeAt, FirstGeneration, NextGeneration;
    var n := |g0|;
    forall i | 0 <= i < n ensures g0[i] == NodeAt(h, seed, n, 0, i) { FirstNodes(h, seed, g0, i); }
    forall i | 0 <= i < n ensures g1[i] == NodeAt(h, seed, n, 1, i) { NextNodes(h, seed, g0, g1, 0, i); }
    forall i | 0 <= i < n ensures g2[i] == NodeAt(h, seed, n, 2, i) { NextNodes(h, seed, g1, g2, 1, i); }
    forall i | 0 <= i < n ensures g3[i] == NodeAt(h, seed, n, 3, i) { NextNodes(h, seed, g2, g3, 2, i); }
  }

  // The dataset.

  /** The 256 steps of an item: each folds in the node that the step number and a word of the mix point to. */
  ghost predicate ItemSteps(cache: seq<Node>, index: u32, mixes: seq<Node>)
    requires Usable(cache) && |mixes| == 257
  {
    UsableLength(cache);
    forall k :: 0 <= k < 256 ==>
      var parent := Fnv(Xor(index, k), mixes[k][k % 16]) % (|cache| % 0x1_0000_0000);
      mixes[k + 1] == FnvNodes(mixes[k], cache[parent])
  }

  lemma {:induction false} ItemAfter(h: Hashes, cache: seq<Node>, index: u32, mixes: seq<Node>, k: nat)
    requires Usable(cache) && |mixes| == 257 && ItemSteps(cache, index, mixes) && k <= 256
    ensures mixes[k] == WithParents(cache, index, mixes[0], k)
  {
    hide Fnv, Xor, FnvNodes;
    if k > 0 {
      ItemAfter(h, cache, index, mixes, k - 1);
      UsableLength(cache);
      assert mixes[(k - 1) + 1] == mixes[k];
    }
  }

  /** A dataset item is the hash of the last of these, starting from the hash of a node with the number xored in. */
  lemma DagItemIs(h: Hashes, cache: seq<Node>, index: u32, first: Node, mixes: seq<Node>)
    requires Usable(cache) && |mixes| == 257 && ItemSteps(cache, index, mixes)
    requires |cache| > 0 && first[0] == Xor(cache[index % |cache|][0], index)
    requires first[1..] == cache[index % |cache|][1..]
    requires mixes[0] == h.keccak512(first)
    ensures DagItem(h, cache, index) == h.keccak512(mixes[256])
  {
    hide Xor, WithParents;
    UsableLength(cache);
    var node := cache[index % |cache|];
    assert first == [first[0]] + first[1..] == node[0 := Xor(node[0], index)];
    ItemAfter(h, cache, index, mixes, 256);
  }

  // Hashimoto.

  /** The 64 accesses: each folds both nodes of a page, chosen by its number and a word of the mix, into the mix. */
  ghost predicate AccessSteps(h: Hashes, cache: seq<Node>, pages: nat, half: Node, mixes: seq<Mix>)
    requires Usable(cache) && pages > 0 && |mixes| == 65
  {
    forall k, w :: 0 <= k < 64 && 0 <= w < 32 ==>
      var page := Fnv(Xor(half[0], k), mixes[k][k % 32]) % pages;
      mixes[k + 1][w] == Fnv(mixes[k][w], DagItem(h, cache, (2 * page + w / 16) % 0x1_0000_0000)[w % 16])
  }

  lemma AccessWord(h: Hashes, cache: seq<Node>, pages: nat, first: u32, mix: Mix, k: nat, w: nat)
    requires Usable(cache) && k < 64 && pages > 0 && w < 32
    ensures var page := Fnv(Xor(first, k), mix[k % 32]) % pages;
            Access(h, cache, pages, first, mix, k)[w]
            == Fnv(mix[w], DagItem(h, cache, (2 * page + w / 16) % 0x1_0000_0000)[w % 16])
  {
    hide Fnv, Xor, DagItem;
    if w < 16 {
      assert w / 16 == 0 && w % 16 == w;
    } else {
      assert w / 16 == 1 && w % 16 == w - 16;
    }
  }

  lemma {:induction false} AccessesAre(h: Hashes, cache: seq<Node>, pages: nat, half: Node, mixes: seq<Mix>, k: nat)
    requires Usable(cache) && pages > 0 && |mixes| == 65 && mixes[0] == half + half && k <= 64
    requires AccessSteps(h, cache, pages, half, mixes)
    ensures mixes[k] == MixAfter(h, cache, pages, half, k)
  {
    hide Fnv, Xor, DagItem, Access;
    if k > 0 {
      AccessesAre(h, cache, pages, half, mixes, k - 1);
      forall w | 0 <= w < 32
        ensures mixes[k][w] == MixAfter(h, cache, pages, half, k)[w]
      {
        AccessWord(h, cache, pages, half[0], mixes[k - 1], k - 1, w);
        assert mixes[(k - 1) + 1] == mixes[k];
      }
    }
  }

  /**
   * Hashimoto: the half mix is the hash of header and nonce, the mix starts as two copies of it, and the mix hash folds
   * four words each of the last mix. The value is the hash of half mix and mix hash.
   */
  lemma HashimotoIs(h: Hashes, cache: seq<Node>, fullSize: nat, header: H256, nonce: u64, half: Node,
                    mixes: seq<Mix>, i: nat)
    requires Usable(cache) && Pages(fullSize) > 0 && |mixes| == 65 && i < 8
    requires half == h.keccak512(header + [nonce % 0x1_0000_0000, nonce / 0x1_0000_0000])
    requires mixes[0] == half + half
    requires AccessSteps(h, cache, fullSize / 128 % 0x1_0000_0000, half, mixes)
    ensures var m, pow := mixes[64], Hashimoto.Hashimoto(h, cache, fullSize, header, nonce);
            && pow.mixHash[i] == Fnv(Fnv(Fnv(m[4 * i], m[4 * i + 1]), m[4 * i + 2]), m[4 * i + 3])
            && pow.value == h.keccak256(half + pow.mixHash)
  {
    hide Fnv, AccessSteps, MixAfter;
    AccessesAre(h, cache, Pages(fullSize), half, mixes, 64);
  }
}
