/** Filling the node cache in place, against its definition by recurrence (Yellow Paper, appendix J.3). */
module NodeCache {
  import opened Words
  import opened EthashNodes

  const CACHE_ROUNDS: nat := 3

  /**
   * Node `i` of a cache of `n` nodes after `round` rounds. Round zero is the Keccak chain from the seed. In a
   * later round a node is the hash of its predecessor xored with a pseudo-random node, each of them as the
   * current round has left it if its turn has come, and as the round before left it otherwise.
   */
  ghost function NodeAt(h: Hashes, seed: H256, n: nat, round: nat, i: nat): Node
    requires i < n
    decreases round, i
  {
    if round == 0 then h.keccak512(if i == 0 then seed else NodeAt(h, seed, n, 0, i - 1))
    else
      var pred := if i == 0 then NodeAt(h, seed, n, round - 1, n - 1) else NodeAt(h, seed, n, round, i - 1);
      var j := Mod(NodeAt(h, seed, n, round - 1, i)[0], n);
      var other := if j < i then NodeAt(h, seed, n, round, j) else NodeAt(h, seed, n, round - 1, j);
      h.keccak512(XorNodes(pred, other))
  }

  /** The finished cache for a seed hash. */
  ghost function CacheOf(h: Hashes, seed: H256, n: nat): (nodes: seq<Node>)
    ensures |nodes| == n
  {
    seq(n, i requires 0 <= i < n => NodeAt(h, seed, n, CACHE_ROUNDS, i))
  }

  lemma PredecessorIndex(n: nat, i: nat)
    requires i < n
    ensures Mod(n - 1 + i, n) == if i == 0 then n - 1 else i - 1
  {
    if i > 0 {
      assert (n + (i - 1)) % n == i - 1;
    }
  }

  /** Part-way through a round: the first `i` nodes belong to the new round, the others still to the old one. */
  ghost predicate Midway(h: Hashes, seed: H256, nodes: seq<Node>, round: nat, i: nat) {
    forall k :: 0 <= k < |nodes| ==> nodes[k] == NodeAt(h, seed, |nodes|, if k < i then round + 1 else round, k)
  }

  function MixedNode(h: Hashes, nodes: seq<Node>, i: nat): Node
    requires i < |nodes|
  {
    h.keccak512(XorNodes(nodes[Mod(|nodes| - 1 + i, |nodes|)], nodes[Mod(nodes[i][0], |nodes|)]))
  }

  /** The node computed in place is that of the recurrence: both nodes it mixes are where the recurrence puts them. */
  lemma MixedIsNext(h: Hashes, seed: H256, nodes: seq<Node>, round: nat, i: nat)
    requires Midway(h, seed, nodes, round, i) && i < |nodes|
    ensures MixedNode(h, nodes, i) == NodeAt(h, seed, |nodes|, round + 1, i)
  {
    hide XorNodes;
    var n := |nodes|;
    PredecessorIndex(n, i);
    NodeOf(h, seed, nodes, round, i, i);
    NodeOf(h, seed, nodes, round, i, if i == 0 then n - 1 else i - 1);
    NodeOf(h, seed, nodes, round, i, Mod(nodes[i][0], n));
    hide Midway, Mod;
  }

  lemma NodeOf(h: Hashes, seed: H256, nodes: seq<Node>, round: nat, i: nat, k: nat)
    requires Midway(h, seed, nodes, round, i) && k < |nodes|
    ensures nodes[k] == NodeAt(h, seed, |nodes|, if k < i then round + 1 else round, k)
  {
    hide NodeAt;
  }

  lemma NextNode(h: Hashes, seed: H256, nodes: seq<Node>, round: nat, i: nat)
    requires Midway(h, seed, nodes, round, i) && i < |nodes|
    ensures Midway(h, seed, nodes[i := MixedNode(h, nodes, i)], round, i + 1)
  {
    MixedIsNext(h, seed, nodes, round, i);
    hide NodeAt, MixedNode;
  }

  method MixInPlace(h: Hashes, memory: array<Node>, i: nat)
    requires i < memory.Length
    modifies memory
    ensures memory[..] == old(memory[..])[i := MixedNode(h, old(memory[..]), i)]
  {
    var n := memory.Length;
    var dataIdx := Mod(n - 1 + i, n);
    var idx := Mod(memory[i][0], n);
    var data := XorInto(memory[dataIdx], memory[idx]);
    memory[i] := h.keccak512(data);
  }

  /** One round, in place. */
  method Round(h: Hashes, memory: array<Node>, ghost seed: H256, ghost round: nat)
    requires memory.Length >= 1 && Midway(h, seed, memory[..], round, 0)
    modifies memory
    ensures Midway(h, seed, memory[..], round + 1, 0)
  {
    for i := 0 to memory.Length
      invariant Midway(h, seed, memory[..], round, i)
    {
      NextNode(h, seed, memory[..], round, i);
      MixInPlace(h, memory, i);
    }
  }

  /** `initialize_memory`: every index it uses is in range, and it leaves exactly the defined cache. */
  method InitializeMemory(h: Hashes, memory: array<Node>, seed: H256)
    requires memory.Length >= 1
    modifies memory
    ensures memory[..] == CacheOf(h, seed, memory.Length)
  {
    var n := memory.Length;
    memory[0] := h.keccak512(seed);
    for i := 1 to n
      invariant forall k :: 0 <= k < i ==> memory[k] == NodeAt(h, seed, n, 0, k)
    {
      memory[i] := h.keccak512(memory[i - 1]);
    }
    for round := 0 to CACHE_ROUNDS
      invariant Midway(h, seed, memory[..], round, 0)
    {
      Round(h, memory, seed, round);
    }
  }
}
