/** Nodes of the Ethash cache and dataset: sixteen 32-bit words, little-endian, and the mixing of nodes. */
module EthashNodes {
  import opened Numerals
  import opened Words

  const NODE_WORDS: nat := 16
  const FNV_PRIME: u32 := 0x01000193

  type Node = w: seq<u32> | |w| == 16 witness seq(16, _ => 0)

  type H256 = w: seq<u32> | |w| == 8 witness seq(8, _ => 0)

  /** The two Keccak sponges of the library, as any functions with outputs of the right width. */
  datatype Hashes = Hashes(keccak512: seq<u32> -> Node, keccak256: seq<u32> -> H256)

  function Fnv(x: u32, y: u32): u32 {
    Xor(Mul(x, FNV_PRIME), y)
  }

  /** The cast of a count to 32 bits. */
  function ToU32(n: nat): u32 {
    n % TWO_32
  }

  /** The two words of a 64-bit number, low one first. */
  function NonceWords(nonce: u64): seq<u32> {
    [ToU32(nonce), nonce / TWO_32]
  }

  function FnvNodes(a: Node, b: Node): Node {
    seq(16, i requires 0 <= i < 16 => Fnv(a[i], b[i]))
  }

  function XorNodes(a: Node, b: Node): Node {
    seq(16, i requires 0 <= i < 16 => Xor(a[i], b[i]))
  }

  /** The word-by-word loop that folds `b` into `a` with FNV. */
  method FnvInto(a: Node, b: Node) returns (r: Node)
    ensures r == FnvNodes(a, b)
  {
    r := a;
    for i := 0 to 16
      invariant forall k :: 0 <= k < 16 ==> r[k] == if k < i then Fnv(a[k], b[k]) else a[k]
    {
      r := r[i := Fnv(r[i], b[i])];
    }
  }

  /** The word-by-word loop that xors `b` into `a`. */
  method XorInto(a: Node, b: Node) returns (r: Node)
    ensures r == XorNodes(a, b)
  {
    r := a;
    for i := 0 to 16
      invariant forall k :: 0 <= k < 16 ==> r[k] == if k < i then Xor(a[k], b[k]) else a[k]
    {
      r := r[i := Xor(r[i], b[i])];
    }
  }
}
