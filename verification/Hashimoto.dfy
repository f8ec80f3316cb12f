/** Dataset items and the Hashimoto loop, in place, against their recursive definitions. */
module Hashimoto {
  import opened Numerals
  import opened Words
  import opened EthashNodes
  import opened EthashSizes

  const DATASET_PARENTS: nat := 256
  const ACCESSES: nat := 64
  const MIX_WORDS: nat := 32

  datatype ProofOfWork = ProofOfWork(value: H256, mixHash: H256)

  /** A cache that `calculate_dag_item` can index: not empty, also after its length is cast to 32 bits. */
  predicate Usable(cache: seq<Node>) {
    ToU32(|cache|) > 0
  }

  lemma UsableLength(cache: seq<Node>)
    requires Usable(cache)
    ensures 0 < ToU32(|cache|) <= |cache|
  {
  }

  lemma OddIsUsable(n: nat)
    requires n % 2 == 1
    ensures ToU32(n) > 0
  {
    assert n == (n / TWO_32) * TWO_32 + n % TWO_32;
  }

  function ParentIndex(cache: seq<Node>, index: u32, k: nat, mix: Node): (p: nat)
    requires Usable(cache) && k < DATASET_PARENTS
    ensures p < |cache|
  {
    UsableLength(cache);
    Mod(Fnv(Xor(index, k), mix[k % NODE_WORDS]), ToU32(|cache|))
  }

  /** The item after folding in its first `k` parents. */
  function WithParents(cache: seq<Node>, index: u32, start: Node, k: nat): Node
    requires Usable(cache) && k <= DATASET_PARENTS
  {
    if k == 0 then start
    else
      var mix := WithParents(cache, index, start, k - 1);
      FnvNodes(mix, cache[ParentIndex(cache, index, k - 1, mix)])
  }

  function FirstMix(cache: seq<Node>, index: u32): Node
    requires Usable(cache)
  {
    UsableLength(cache);
    var node := cache[Mod(index, |cache|)];
    node[0 := Xor(node[0], index)]
  }

  /** Item `index` of the dataset. */
  function DagItem(h: Hashes, cache: seq<Node>, index: u32): Node
    requires Usable(cache)
  {
    h.keccak512(WithParents(cache, index, h.keccak512(FirstMix(cache, index)), DATASET_PARENTS))
  }

  method CalculateDagItem(h: Hashes, cache: seq<Node>, index: u32) returns (ret: Node)
    requires Usable(cache)
    ensures ret == DagItem(h, cache, index)
  {
    UsableLength(cache);
    ret := cache[Mod(index, |cache|)];
    ret := ret[0 := Xor(ret[0], index)];
    ret := h.keccak512(ret);
    ghost var start := ret;
    for i := 0 to DATASET_PARENTS
      invariant ret == WithParents(cache, index, start, i)
    {
      var parent := cache[ParentIndex(cache, index, i, ret)];
      ret := FnvInto(ret, parent);
    }
    ret := h.keccak512(ret);
  }

  /** Header and nonce hashed together: the start of the mix and of the final hash. */
  function HalfMix(h: Hashes, header: H256, nonce: u64): Node {
    h.keccak512(header + NonceWords(nonce))
  }

  type Mix = w: seq<u32> | |w| == 32 witness seq(32, _ => 0)

  /** The page read by access `k`. */
  function PageIndex(first: u32, mix: Mix, k: nat, pages: nat): (p: nat)
    requires k < ACCESSES && pages > 0
    ensures p < pages
  {
    Mod(Fnv(Xor(first, k), mix[k % MIX_WORDS]), pages)
  }

  /** Index of node `n` of a page, in 32-bit arithmetic. */
  function NodeIndex(page: nat, n: nat): u32 {
    ToU32(2 * page + n)
  }

  /** One access: both nodes of the page are folded into the two halves of the mix. */
  function Access(h: Hashes, cache: seq<Node>, pages: nat, first: u32, mix: Mix, k: nat): Mix
    requires Usable(cache) && k < ACCESSES && pages > 0
  {
    var page := PageIndex(first, mix, k, pages);
    FnvNodes(mix[..16], DagItem(h, cache, NodeIndex(page, 0)))
    + FnvNodes(mix[16..], DagItem(h, cache, NodeIndex(page, 1)))
  }

  function MixAfter(h: Hashes, cache: seq<Node>, pages: nat, half: Node, k: nat): Mix
    requires Usable(cache) && k <= ACCESSES && pages > 0
  {
    if k == 0 then half + half
    else Access(h, cache, pages, half[0], MixAfter(h, cache, pages, half, k - 1), k - 1)
  }

  function CompressWord(mix: Mix, i: nat): u32
    requires i < 8
  {
    Fnv(Fnv(Fnv(mix[4 * i], mix[4 * i + 1]), mix[4 * i + 2]), mix[4 * i + 3])
  }

  function Compress(mix: Mix): H256 {
    seq(8, i requires 0 <= i < 8 => CompressWord(mix, i))
  }

  function Pages(fullSize: nat): nat {
    ToU32(fullSize / MIX_BYTES)
  }

  /** The Hashimoto proof of work over a light cache. */
  function Hashimoto(h: Hashes, cache: seq<Node>, fullSize: nat, header: H256, nonce: u64): ProofOfWork
    requires Usable(cache) && Pages(fullSize) > 0
  {
    var half := HalfMix(h, header, nonce);
    var mixHash := Compress(MixAfter(h, cache, Pages(fullSize), half, ACCESSES));
    ProofOfWork(h.keccak256(half + mixHash), mixHash)
  }

  /** A node folded into the sixteen words of the mix from `at` on. */
  function Fold(mix: Mix, at: nat, node: Node): Mix
    requires at <= 16
  {
    mix[..at] + FnvNodes(mix[at..at + 16], node) + mix[at + 16..]
  }

  lemma FoldHalves(mix: Mix, a: Node, b: Node)
    ensures Fold(Fold(mix, 0, a), 16, b) == FnvNodes(mix[..16], a) + FnvNodes(mix[16..], b)
  {
    assert Fold(mix, 0, a) == FnvNodes(mix[..16], a) + mix[16..];
  }

  method FoldInPlace(mix: array<u32>, at: nat, node: Node)
    requires mix.Length == 32 && at <= 16
    modifies mix
    ensures mix[..] == Fold(old(mix[..]), at, node)
  {
    ghost var was := mix[..];
    for i := 0 to 16
      invariant forall j :: 0 <= j < 32 ==>
                  mix[j] == if at <= j < at + i then Fnv(was[j], node[j - at]) else was[j]
    {
      mix[at + i] := Fnv(mix[at + i], node[i]);
    }
  }

  /** One access on the mix array: the page index is read before either half changes. */
  method AccessInPlace(h: Hashes, cache: seq<Node>, pages: nat, first: u32, mix: array<u32>, k: nat)
    requires Usable(cache) && k < ACCESSES && pages > 0 && mix.Length == 32
    modifies mix
    ensures mix[..] == Access(h, cache, pages, first, old(mix[..]), k)
  {
    ghost var before: Mix := mix[..];
    var page := Mod(Fnv(Xor(first, k), mix[k % MIX_WORDS]), pages);
    ghost var first', second := DagItem(h, cache, NodeIndex(page, 0)), DagItem(h, cache, NodeIndex(page, 1));
    for n := 0 to 2
      invariant mix[..] == if n == 0 then before
                           else if n == 1 then Fold(before, 0, first') else Fold(Fold(before, 0, first'), 16, second)
    {
      var node := CalculateDagItem(h, cache, NodeIndex(page, n));
      FoldInPlace(mix, 16 * n, node);
    }
    FoldHalves(before, first', second);
  }

  method AllAccesses(h: Hashes, cache: seq<Node>, pages: nat, first: u32, mix: array<u32>, ghost half: Node)
    requires Usable(cache) && pages > 0 && mix.Length == 32 && mix[..] == half + half && first == half[0]
    modifies mix
    ensures mix[..] == MixAfter(h, cache, pages, half, ACCESSES)
  {
    for i := 0 to ACCESSES
      invariant mix[..] == MixAfter(h, cache, pages, half, i)
    {
      AccessInPlace(h, cache, pages, first, mix, i);
    }
  }

  method CompressInPlace(mix: array<u32>, buf: array<u32>)
    requires mix.Length == 32 && buf.Length == 24 && mix != buf
    modifies buf
    ensures buf[..16] == old(buf[..16]) && buf[16..] == Compress(mix[..])
  {
    for i := 0 to 8
      invariant buf[..16] == old(buf[..16])
      invariant forall j :: 0 <= j < i ==> buf[16 + j] == CompressWord(mix[..], j)
    {
      var w := 4 * i;
      var reduction := mix[w];
      reduction := Xor(Mul(reduction, FNV_PRIME), mix[w + 1]);
      reduction := Xor(Mul(reduction, FNV_PRIME), mix[w + 2]);
      reduction := Xor(Mul(reduction, FNV_PRIME), mix[w + 3]);
      buf[16 + i] := reduction;
    }
  }

  /**
   * `hash_compute`: one buffer holds the half mix and then the compressed mix, and the final hash is taken over
   * it as it stands. A size that is not a multiple of the mix words makes the code panic; nothing is returned.
   */
  method HashCompute(h: Hashes, cache: seq<Node>, fullSize: nat, header: H256, nonce: u64)
    returns (r: Option<ProofOfWork>)
    requires Usable(cache) && Pages(fullSize) > 0
    ensures r.None? <==> fullSize % MIX_WORDS != 0
    ensures r.Some? ==> r.value == Hashimoto(h, cache, fullSize, header, nonce)
  {
    if fullSize % MIX_WORDS != 0 {
      return None;
    }
    var half := HalfMix(h, header, nonce);
    var buf := new u32[24](i requires 0 <= i < 24 => if i < 16 then half[i] else 0);
    var mix := new u32[32](i requires 0 <= i < 32 => if i < 16 then half[i] else half[i - 16]);
    assert mix[..] == half + half && buf[..16] == half;
    var pages := Pages(fullSize);
    var first := buf[0];
    AllAccesses(h, cache, pages, first, mix, half);
    CompressInPlace(mix, buf);
    var mixHash: H256 := buf[16..];
    assert buf[..] == half + mixHash;
    r := Some(ProofOfWork(h.keccak256(buf[..]), mixHash));
  }

  /** `light_compute` sizes the dataset by the block the light cache was built for; it never panics. */
  method LightCompute(h: Hashes, cache: seq<Node>, block: u64, header: H256, nonce: u64) returns (r: ProofOfWork)
    requires Usable(cache)
    ensures Pages(MIX_BYTES * DataPages(Epoch(block))) > 0
    ensures r == Hashimoto(h, cache, MIX_BYTES * DataPages(Epoch(block)), header, nonce)
  {
    var fullSize := GetDataSize(block);
    PagesPositive(Epoch(block));
    var maybe := HashCompute(h, cache, fullSize, header, nonce);
    r := maybe.value;
  }

  /** The dataset has at least one page also after the cast, as the number of pages is odd. */
  lemma PagesPositive(epoch: nat)
    ensures Pages(MIX_BYTES * DataPages(epoch)) > 0
    ensures MIX_BYTES * DataPages(epoch) % MIX_WORDS == 0
  {
    OddIsUsable(DataPages(epoch));
    WholePages(DataPages(epoch));
  }

  lemma WholePages(pages: nat)
    ensures MIX_BYTES * pages / MIX_BYTES == pages && MIX_BYTES * pages % MIX_WORDS == 0
  {
  }

  /** The Hashimoto branch of the quick check. */
  method QuickHashimoto(h: Hashes, header: H256, nonce: u64, mixHash: H256) returns (value: H256)
    ensures value == h.keccak256(HalfMix(h, header, nonce) + mixHash)
  {
    var buf := header + NonceWords(nonce);
    value := h.keccak256(h.keccak512(buf) + mixHash);
  }

  /** Up to epoch 32640 no cast or product of the Hashimoto indexes loses anything, and every node exists. */
  lemma HashimotoIndexesExact(epoch: nat, page: nat, n: nat)
    requires epoch <= 32640 && page < Pages(MIX_BYTES * DataPages(epoch)) && n < 2
    ensures Pages(MIX_BYTES * DataPages(epoch)) == DataPages(epoch)
    ensures ToU32(2 * page + n) == 2 * page + n < 2 * DataPages(epoch)
  {
    DatasetIndexesFit(epoch);
    WholePages(DataPages(epoch));
  }
}
