/** Sizes of the cache and of the dataset: the largest primes below a line that grows with the epoch. */
module EthashSizes {
  import opened Numerals

  const EPOCH_LENGTH: nat := 30000
  const CACHE_BYTES_INIT: nat := 0x100_0000
  const CACHE_BYTES_GROWTH: nat := 0x2_0000
  const DATASET_BYTES_INIT: nat := 0x4000_0000
  const DATASET_BYTES_GROWTH: nat := 0x80_0000
  const NODE_BYTES: nat := 64
  const MIX_BYTES: nat := 128

  function Epoch(block: u64): nat {
    block / EPOCH_LENGTH
  }

  predicate IsPrime(n: nat) {
    n >= 2 && forall d :: 2 <= d < n ==> n % d != 0
  }

  lemma EvenNotPrime(n: nat)
    requires n % 2 == 0 && n > 2
    ensures !IsPrime(n)
  {
    assert 2 <= 2 < n && n % 2 == 0;
  }

  /** The largest prime up to an odd bound, by trying every other number downwards. */
  function PrimeAtMost(n: nat): (p: nat)
    requires n % 2 == 1 && n >= 3
    ensures IsPrime(p) && 3 <= p <= n && p % 2 == 1
    ensures forall q :: p < q <= n ==> !IsPrime(q)
  {
    assert IsPrime(3);
    if IsPrime(n) then n
    else
      EvenNotPrime(n - 1);
      PrimeAtMost(n - 2)
  }

  /** The line, in 64-bit arithmetic: `init + growth * epoch`, less one unit; both operations wrap. */
  function Line(init: nat, growth: nat, unit: nat, epoch: nat): u64 {
    ((init + growth * epoch) % TWO_64 + TWO_64 - unit) % TWO_64
  }

  predicate Fits(init: nat, growth: nat, epoch: nat) {
    init + growth * epoch < TWO_64
  }

  lemma WrapAt(q: nat, r: nat)
    requires r < TWO_64
    ensures (q * TWO_64 + r) % TWO_64 == r
  {
  }

  // The sums below are multiples of the growth, and so is 2^64: wrapping keeps the line odd in units.

  lemma CacheSum(epoch: nat)
    ensures var m := 128 + epoch;
            (CACHE_BYTES_INIT + CACHE_BYTES_GROWTH * epoch) % TWO_64 == 0x2_0000 * (m % 0x8000_0000_0000)
  {
    var m := 128 + epoch;
    var q, k := m / 0x8000_0000_0000, m % 0x8000_0000_0000;
    assert CACHE_BYTES_INIT + CACHE_BYTES_GROWTH * epoch == q * TWO_64 + 0x2_0000 * k;
    WrapAt(q, 0x2_0000 * k);
  }

  lemma DataSum(epoch: nat)
    ensures var m := 128 + epoch;
            (DATASET_BYTES_INIT + DATASET_BYTES_GROWTH * epoch) % TWO_64 == 0x80_0000 * (m % 0x200_0000_0000)
  {
    var m := 128 + epoch;
    var q, k := m / 0x200_0000_0000, m % 0x200_0000_0000;
    assert DATASET_BYTES_INIT + DATASET_BYTES_GROWTH * epoch == q * TWO_64 + 0x80_0000 * k;
    WrapAt(q, 0x80_0000 * k);
  }

  /** A size that is one unit less than an even number of units. */
  lemma OddUnits(unit: nat, half: nat)
    requires (unit == NODE_BYTES || unit == MIX_BYTES) && half >= 2
    ensures var sz := unit * (2 * half - 1); sz % unit == 0 && sz / unit == 2 * half - 1 && sz / unit % 2 == 1
  {
  }

  lemma CacheLine(epoch: nat)
    ensures var sz := Line(CACHE_BYTES_INIT, CACHE_BYTES_GROWTH, NODE_BYTES, epoch);
            && sz % NODE_BYTES == 0 && sz / NODE_BYTES % 2 == 1 && sz / NODE_BYTES >= 3
            && (Fits(CACHE_BYTES_INIT, CACHE_BYTES_GROWTH, epoch) ==>
                  sz == CACHE_BYTES_INIT + CACHE_BYTES_GROWTH * epoch - NODE_BYTES)
  {
    var k := (128 + epoch) % 0x8000_0000_0000;
    CacheSum(epoch);
    WrapDown(0x2_0000 * k, NODE_BYTES);
    OddUnits(NODE_BYTES, if k == 0 then 0x200_0000_0000_0000 else 0x400 * k);
  }

  lemma DataLine(epoch: nat)
    ensures var sz := Line(DATASET_BYTES_INIT, DATASET_BYTES_GROWTH, MIX_BYTES, epoch);
            && sz % MIX_BYTES == 0 && sz / MIX_BYTES % 2 == 1 && sz / MIX_BYTES >= 3
            && (Fits(DATASET_BYTES_INIT, DATASET_BYTES_GROWTH, epoch) ==>
                  sz == DATASET_BYTES_INIT + DATASET_BYTES_GROWTH * epoch - MIX_BYTES)
  {
    var k := (128 + epoch) % 0x200_0000_0000;
    DataSum(epoch);
    WrapDown(0x80_0000 * k, MIX_BYTES);
    OddUnits(MIX_BYTES, if k == 0 then 0x100_0000_0000_0000 else 0x8000 * k);
  }

  lemma WrapDown(r: nat, unit: nat)
    requires r < TWO_64 && 0 < unit < TWO_64
    ensures (r + TWO_64 - unit) % TWO_64 == if r < unit then r + TWO_64 - unit else r - unit
  {
  }

  /** Number of nodes in the cache of an epoch. */
  function CacheNodes(epoch: nat): (n: nat)
    ensures IsPrime(n) && n >= 3 && n % 2 == 1
  {
    CacheLine(epoch);
    PrimeAtMost(Line(CACHE_BYTES_INIT, CACHE_BYTES_GROWTH, NODE_BYTES, epoch) / NODE_BYTES)
  }

  /** Number of 128-byte pages in the dataset of an epoch. */
  function DataPages(epoch: nat): (n: nat)
    ensures IsPrime(n) && n >= 3 && n % 2 == 1
  {
    DataLine(epoch);
    PrimeAtMost(Line(DATASET_BYTES_INIT, DATASET_BYTES_GROWTH, MIX_BYTES, epoch) / MIX_BYTES)
  }

  lemma PrimeStep(n: nat)
    requires n % 2 == 1 && n >= 3 && !IsPrime(n)
    ensures n >= 5 && PrimeAtMost(n) == PrimeAtMost(n - 2)
  {
    assert IsPrime(3);
  }

  /** The search never runs below zero, and ends at the largest prime number of nodes up to where it starts. */
  method GetCacheSize(block: u64) returns (sz: u64)
    ensures sz == NODE_BYTES * CacheNodes(Epoch(block))
  {
    hide IsPrime, PrimeAtMost, Line, Epoch;
    CacheLine(Epoch(block));
    sz := Line(CACHE_BYTES_INIT, CACHE_BYTES_GROWTH, NODE_BYTES, Epoch(block));
    ghost var n := sz / NODE_BYTES;
    assert PrimeAtMost(n) == CacheNodes(Epoch(block));
    hide CacheNodes;
    while !IsPrime(sz / NODE_BYTES)
      invariant sz == NODE_BYTES * n && n % 2 == 1 && n >= 3
      invariant PrimeAtMost(n) == CacheNodes(Epoch(block))
      decreases n
    {
      PrimeStep(n);
      sz := sz - 2 * NODE_BYTES;
      n := n - 2;
    }
  }

  /** The same search over pages of the dataset. */
  method GetDataSize(block: u64) returns (sz: u64)
    ensures sz == MIX_BYTES * DataPages(Epoch(block))
  {
    hide IsPrime, PrimeAtMost, Line, Epoch;
    DataLine(Epoch(block));
    sz := Line(DATASET_BYTES_INIT, DATASET_BYTES_GROWTH, MIX_BYTES, Epoch(block));
    ghost var n := sz / MIX_BYTES;
    assert PrimeAtMost(n) == DataPages(Epoch(block));
    hide DataPages;
    while !IsPrime(sz / MIX_BYTES)
      invariant sz == MIX_BYTES * n && n % 2 == 1 && n >= 3
      invariant PrimeAtMost(n) == DataPages(Epoch(block))
      decreases n
    {
      PrimeStep(n);
      sz := sz - 2 * MIX_BYTES;
      n := n - 2;
    }
  }

  ghost predicate GreatestPrimeBelow(p: nat, bound: nat) {
    IsPrime(p) && p < bound && forall q :: p < q < bound ==> !IsPrime(q)
  }

  /**
   * As long as 64 bits hold the linear bound, the sizes are the greatest prime numbers of nodes and pages
   * strictly below it. This covers every epoch below 2^40.
   */
  lemma SizesAreGreatestPrimes(epoch: nat)
    ensures Fits(CACHE_BYTES_INIT, CACHE_BYTES_GROWTH, epoch) ==>
              GreatestPrimeBelow(CacheNodes(epoch), (CACHE_BYTES_INIT + CACHE_BYTES_GROWTH * epoch) / NODE_BYTES)
    ensures Fits(DATASET_BYTES_INIT, DATASET_BYTES_GROWTH, epoch) ==>
              GreatestPrimeBelow(DataPages(epoch), (DATASET_BYTES_INIT + DATASET_BYTES_GROWTH * epoch) / MIX_BYTES)
    ensures epoch < 0x100_0000_0000 ==>
              Fits(CACHE_BYTES_INIT, CACHE_BYTES_GROWTH, epoch) && Fits(DATASET_BYTES_INIT, DATASET_BYTES_GROWTH, epoch)
  {
    CacheLine(epoch);
    DataLine(epoch);
  }

  /** Up to epoch 32640 every dataset node has a 32-bit index; up to epoch 1920 every dataset word has one. */
  lemma DatasetIndexesFit(epoch: nat)
    ensures epoch <= 32640 ==> 2 * DataPages(epoch) <= 0x1_0000_0000
    ensures epoch <= 1920 ==> 32 * DataPages(epoch) <= 0x1_0000_0000
  {
    SizesAreGreatestPrimes(epoch);
  }
}
