/** Seed hashes of epochs, memoised from the last one computed. */
module SeedHash {
  import opened EthashNodes

  const ZERO: H256 := [0, 0, 0, 0, 0, 0, 0, 0]

  function Iterate(h: Hashes, hash: H256, n: nat): H256 {
    if n == 0 then hash else h.keccak256(Iterate(h, hash, n - 1))
  }

  /** The seed of an epoch: the zero hash, hashed once for each epoch before it. */
  function Seed(h: Hashes, epoch: nat): H256 {
    Iterate(h, ZERO, epoch)
  }

  lemma {:induction false} IterateMore(h: Hashes, hash: H256, m: nat, n: nat)
    ensures Iterate(h, Iterate(h, hash, m), n) == Iterate(h, hash, m + n)
  {
    if n > 0 {
      IterateMore(h, hash, m, n - 1);
    }
  }

  method ResumeSeedHash(h: Hashes, hash: H256, start: nat, end: nat) returns (r: H256)
    ensures r == Iterate(h, hash, if start < end then end - start else 0)
  {
    r := hash;
    var i := start;
    while i < end
      invariant i >= start && (i > start ==> i <= end)
      invariant r == Iterate(h, hash, i - start)
    {
      r := h.keccak256(r);
      i := i + 1;
    }
  }

  class SeedHashCompute {
    const h: Hashes
    var prevEpoch: nat
    var prevSeed: H256

    /** The memo always holds the seed of the epoch it names. */
    ghost predicate Valid()
      reads this
    {
      prevSeed == Seed(h, prevEpoch)
    }

    constructor (h: Hashes)
      ensures this.h == h && Valid()
    {
      this.h := h;
      prevEpoch, prevSeed := 0, ZERO;
    }

    /** Whatever was asked before, the answer is the seed of the epoch. */
    method HashEpoch(epoch: nat) returns (seed: H256)
      requires Valid()
      modifies this
      ensures Valid() && seed == Seed(h, epoch)
    {
      if epoch < prevEpoch {
        prevEpoch, prevSeed := 0, ZERO;
      }
      if epoch > prevEpoch {
        IterateMore(h, ZERO, prevEpoch, epoch - prevEpoch);
        prevSeed := ResumeSeedHash(h, prevSeed, prevEpoch, epoch);
        prevEpoch := epoch;
      }
      seed := prevSeed;
    }
  }

  /** The seed of an epoch: as many hashes as epochs before it, one of the other, from 32 zero bytes. */
  lemma {:induction false} SeedIs(h: Hashes, hashes: seq<H256>)
    requires hashes != [] && forall i :: 0 <= i < 8 ==> hashes[0][i] == 0
    requires forall k :: 0 <= k < |hashes| - 1 ==> hashes[k + 1] == h.keccak256(hashes[k])
    ensures Seed(h, |hashes| - 1) == hashes[|hashes| - 1]
  {
    var n := |hashes| - 1;
    if n == 0 {
      assert hashes[0] == ZERO;
    } else {
      SeedIs(h, hashes[..n]);
      assert hashes[(n - 1) + 1] == h.keccak256(hashes[n - 1]);
    }
  }
}
