/**
 * The directory of cache files: what reading and building a cache leave there, whatever the file system does.
 *
 * A file is accepted by its size alone. Building may resize a file before it maps it; when the mapping then
 * fails and the nodes are not all written, a file of the expected size with other nodes is left. This module
 * proves exactly when building keeps the directory right.
 */
module CacheFiles {
  import opened Numerals
  import opened EthashNodes
  import opened EthashSizes
  import opened NodeCache
  import opened SeedHash
  import opened LightSlots

  /** Files of the cache directory, by the hash in their name. */
  type Disk = map<H256, seq<Node>>

  /** Which operations succeed while a cache file is looked up. */
  datatype Reading = Reading(canOpen: bool, canRead: bool)

  /** Which operations succeed while a cache is built and flushed, and how many nodes get written. */
  datatype Writing = Writing(
    canOpen: bool,
    canResize: bool,
    canMap: bool,
    canRemove: bool,
    canRewrite: bool,
    written: nat)

  /** One more than the last epoch of a 64-bit block number. */
  const EPOCHS: nat := TWO_64 / EPOCH_LENGTH + 1

  lemma EpochInRange(block: u64)
    ensures Epoch(block) < EPOCHS
  {
  }

  /** A file of the expected size for an epoch has the contents of that epoch's cache. */
  ghost predicate DiskOk(h: Hashes, disk: Disk) {
    forall e: nat :: e < EPOCHS && Seed(h, e) in disk && |disk[Seed(h, e)]| == CacheNodes(e) ==>
      disk[Seed(h, e)] == NodesOf(h, e)
  }

  /** Epochs of block numbers with the same seed hash, if there are any, have caches of the same size. */
  ghost predicate SeedsTellSizes(h: Hashes) {
    forall e: nat, f: nat :: e < EPOCHS && f < EPOCHS && Seed(h, e) == Seed(h, f) ==> CacheNodes(e) == CacheNodes(f)
  }

  /** The file of that name; one that is opened for writing and is not there is created empty. */
  function Entry(disk: Disk, ident: H256): seq<Node> {
    if ident in disk then disk[ident] else []
  }

  /** `from_file`: optimising for memory, opening the file creates it. */
  function AfterReading(disk: Disk, ident: H256, forMemory: bool, r: Reading): Disk {
    if forMemory && r.canOpen then disk[ident := Entry(disk, ident)] else disk
  }

  /** `from_file`: what it finds, if that has the expected number of nodes. */
  function Found(disk: Disk, ident: H256, nodes: nat, r: Reading): Option<seq<Node>> {
    if r.canOpen && r.canRead && ident in disk && |disk[ident]| == nodes then Some(disk[ident]) else None
  }

  const ZERO_NODE: Node := seq(16, _ => 0)

  /** `set_len`: cut off, or filled up with zeros. */
  function Resized(file: seq<Node>, n: nat): (r: seq<Node>)
    ensures |r| == n
  {
    if |file| >= n then file[..n] else file + seq(n - |file|, _ => ZERO_NODE)
  }

  /** Writing the first `k` nodes over a file without truncating it. */
  function Overwritten(file: seq<Node>, nodes: seq<Node>, k: nat): seq<Node>
    requires k <= |nodes|
  {
    nodes[..k] + if |file| > k then file[k..] else []
  }

  predicate Mapped(forMemory: bool, w: Writing) {
    forMemory && w.canOpen && w.canResize && w.canMap
  }

  /** `new_buffer`: the file is opened, resized and mapped, in this order; memory serves if any of them fails. */
  function AfterMapping(disk: Disk, ident: H256, nodes: seq<Node>, forMemory: bool, w: Writing): Disk {
    if !forMemory || !w.canOpen then disk
    else if !w.canResize then disk[ident := Entry(disk, ident)]
    else if !w.canMap then disk[ident := Resized(Entry(disk, ident), |nodes|)]
    else disk[ident := nodes]
  }

  function Written(nodes: seq<Node>, w: Writing): (k: nat)
    ensures k <= |nodes|
  {
    if w.written < |nodes| then w.written else |nodes|
  }

  /** `flush`: the file of two epochs before goes, then a cache held in memory is written over what is there. */
  function AfterFlush(disk: Disk, ident: H256, stale: Option<H256>, nodes: seq<Node>, mapped: bool, w: Writing): Disk {
    var rest := if stale.Some? && w.canRemove then disk - {stale.value} else disk;
    if mapped || !w.canRewrite then rest
    else rest[ident := Overwritten(Entry(rest, ident), nodes, Written(nodes, w))]
  }

  function Stale(h: Hashes, epoch: nat): Option<H256> {
    if epoch < 2 then None else Some(Seed(h, epoch - 2))
  }

  /** The directory after building the cache of an epoch and flushing it. */
  ghost function Built(h: Hashes, disk: Disk, epoch: nat, forMemory: bool, w: Writing): Disk {
    var ident, nodes := Seed(h, epoch), NodesOf(h, epoch);
    AfterFlush(AfterMapping(disk, ident, nodes, forMemory, w), ident, Stale(h, epoch), nodes, Mapped(forMemory, w), w)
  }

  /** A file that was resized is mapped, or rewritten as a whole, or removed under the name of an older epoch. */
  ghost predicate Sound(h: Hashes, epoch: nat, forMemory: bool, w: Writing) {
    forMemory && w.canOpen && w.canResize ==>
      || w.canMap
      || (w.canRewrite && w.written >= CacheNodes(epoch))
      || (w.canRemove && Stale(h, epoch) == Some(Seed(h, epoch)))
  }

  lemma SameSeedSameNodes(h: Hashes, e: nat, f: nat)
    requires SeedsTellSizes(h) && e < EPOCHS && f < EPOCHS && Seed(h, e) == Seed(h, f)
    ensures CacheNodes(e) == CacheNodes(f) && NodesOf(h, e) == NodesOf(h, f)
  {
    hide CacheNodes, Seed, CacheOf;
  }

  /** A file may be replaced by any other, as long as that one is right if it has the right size. */
  lemma EntryKeepsDisk(h: Hashes, disk: Disk, epoch: nat, file: seq<Node>)
    requires DiskOk(h, disk) && SeedsTellSizes(h) && epoch < EPOCHS
    requires |file| == CacheNodes(epoch) ==> file == NodesOf(h, epoch)
    ensures DiskOk(h, disk[Seed(h, epoch) := file])
  {
    hide NodesOf, Seed, CacheNodes;
    var disk' := disk[Seed(h, epoch) := file];
    forall e: nat | e < EPOCHS && Seed(h, e) in disk' && |disk'[Seed(h, e)]| == CacheNodes(e)
      ensures disk'[Seed(h, e)] == NodesOf(h, e)
    {
      if Seed(h, e) == Seed(h, epoch) {
        SameSeedSameNodes(h, e, epoch);
      } else {
        assert Seed(h, e) in disk;
      }
    }
  }

  lemma EntryOk(h: Hashes, disk: Disk, epoch: nat)
    requires DiskOk(h, disk) && epoch < EPOCHS && |Entry(disk, Seed(h, epoch))| == CacheNodes(epoch)
    ensures Entry(disk, Seed(h, epoch)) == NodesOf(h, epoch)
  {
    hide NodesOf, Seed, CacheNodes;
  }

  lemma ReadingKeepsDisk(h: Hashes, disk: Disk, epoch: nat, forMemory: bool, r: Reading)
    requires DiskOk(h, disk) && SeedsTellSizes(h) && epoch < EPOCHS
    ensures DiskOk(h, AfterReading(disk, Seed(h, epoch), forMemory, r))
  {
    hide NodesOf, Seed, CacheNodes, DiskOk, SeedsTellSizes;
    if |Entry(disk, Seed(h, epoch))| == CacheNodes(epoch) {
      EntryOk(h, disk, epoch);
    }
    EntryKeepsDisk(h, disk, epoch, Entry(disk, Seed(h, epoch)));
  }

  lemma RemovalKeepsDisk(h: Hashes, disk: Disk, ident: H256)
    requires DiskOk(h, disk)
    ensures DiskOk(h, disk - {ident})
  {
    hide NodesOf, Seed, CacheNodes;
    var disk' := disk - {ident};
    forall e: nat | e < EPOCHS && Seed(h, e) in disk' && |disk'[Seed(h, e)]| == CacheNodes(e)
      ensures disk'[Seed(h, e)] == NodesOf(h, e)
    {
      assert Seed(h, e) in disk;
    }
  }

  lemma OverwrittenRight(file: seq<Node>, nodes: seq<Node>, k: nat)
    requires k <= |nodes| && (|file| == |nodes| ==> file == nodes)
    ensures |Overwritten(file, nodes, k)| == |nodes| ==> Overwritten(file, nodes, k) == nodes
  {
    assert nodes[..|nodes|] == nodes;
    if k < |nodes| && |file| == |nodes| {
      assert nodes[..k] + nodes[k..] == nodes;
    } else if k == |nodes| && |Overwritten(file, nodes, k)| == |nodes| {
      assert Overwritten(file, nodes, k) == nodes;
    }
  }

  /** The file of an epoch stays right even if it is written only in part, or over a longer or shorter one. */
  lemma OverwriteKeepsDisk(h: Hashes, disk: Disk, epoch: nat, k: nat)
    requires DiskOk(h, disk) && SeedsTellSizes(h) && epoch < EPOCHS && k <= CacheNodes(epoch)
    ensures var ident := Seed(h, epoch);
            DiskOk(h, disk[ident := Overwritten(Entry(disk, ident), NodesOf(h, epoch), k)])
  {
    hide NodesOf, Seed, CacheNodes, DiskOk, SeedsTellSizes, Overwritten;
    var file, nodes := Entry(disk, Seed(h, epoch)), NodesOf(h, epoch);
    if |file| == CacheNodes(epoch) {
      EntryOk(h, disk, epoch);
    }
    OverwrittenRight(file, nodes, k);
    EntryKeepsDisk(h, disk, epoch, Overwritten(file, nodes, k));
  }

  lemma FlushKeepsDisk(h: Hashes, disk: Disk, epoch: nat, mapped: bool, w: Writing)
    requires DiskOk(h, disk) && SeedsTellSizes(h) && epoch < EPOCHS
    ensures DiskOk(h, AfterFlush(disk, Seed(h, epoch), Stale(h, epoch), NodesOf(h, epoch), mapped, w))
  {
    hide NodesOf, Seed, CacheNodes, DiskOk, SeedsTellSizes, Overwritten, Stale;
    var stale := Stale(h, epoch);
    if stale.Some? {
      RemovalKeepsDisk(h, disk, stale.value);
    }
    var rest := if stale.Some? && w.canRemove then disk - {stale.value} else disk;
    OverwriteKeepsDisk(h, rest, epoch, Written(NodesOf(h, epoch), w));
  }

  lemma MappingKeepsDisk(h: Hashes, disk: Disk, epoch: nat, forMemory: bool, w: Writing)
    requires DiskOk(h, disk) && SeedsTellSizes(h) && epoch < EPOCHS
    requires forMemory && w.canOpen && w.canResize ==> w.canMap
    ensures DiskOk(h, AfterMapping(disk, Seed(h, epoch), NodesOf(h, epoch), forMemory, w))
  {
    hide NodesOf, Seed, CacheNodes, DiskOk, SeedsTellSizes;
    ReadingKeepsDisk(h, disk, epoch, true, Reading(true, true));
    EntryKeepsDisk(h, disk, epoch, NodesOf(h, epoch));
  }

  /** After a resize without a mapping, all of the nodes or a removal make the directory right again. */
  lemma RepairKeepsDisk(h: Hashes, disk: Disk, epoch: nat, w: Writing)
    requires DiskOk(h, disk) && SeedsTellSizes(h) && epoch < EPOCHS
    requires w.canOpen && w.canResize && !w.canMap && Sound(h, epoch, true, w)
    ensures DiskOk(h, Built(h, disk, epoch, true, w))
  {
    hide NodesOf, Seed, CacheNodes, DiskOk, SeedsTellSizes, Overwritten, Stale, Resized;
    var ident, nodes := Seed(h, epoch), NodesOf(h, epoch);
    var resized := Resized(Entry(disk, ident), |nodes|);
    var stale := Stale(h, epoch);
    if w.canRemove && stale == Some(ident) {
      assert disk[ident := resized] - {ident} == disk - {ident};
      RemovalKeepsDisk(h, disk, ident);
      OverwriteKeepsDisk(h, disk - {ident}, epoch, Written(nodes, w));
    } else {
      var rest := if stale.Some? && w.canRemove then disk - {stale.value} else disk;
      if stale.Some? {
        RemovalKeepsDisk(h, disk, stale.value);
        assert stale.value != ident ==>
                 disk[ident := resized] - {stale.value} == (disk - {stale.value})[ident := resized];
      }
      OverwrittenWhole(resized, nodes);
      EntryKeepsDisk(h, rest, epoch, nodes);
      assert Built(h, disk, epoch, true, w) == rest[ident := nodes];
    }
  }

  lemma OverwrittenWhole(file: seq<Node>, nodes: seq<Node>)
    requires |file| == |nodes|
    ensures Overwritten(file, nodes, |nodes|) == nodes
  {
    assert nodes[..|nodes|] == nodes;
  }

  lemma SoundBuildKeepsDisk(h: Hashes, disk: Disk, epoch: nat, forMemory: bool, w: Writing)
    requires DiskOk(h, disk) && SeedsTellSizes(h) && epoch < EPOCHS && Sound(h, epoch, forMemory, w)
    ensures DiskOk(h, Built(h, disk, epoch, forMemory, w))
  {
    hide NodesOf, Seed, CacheNodes, DiskOk, SeedsTellSizes, AfterFlush, AfterMapping, Stale;
    if forMemory && w.canOpen && w.canResize && !w.canMap {
      RepairKeepsDisk(h, disk, epoch, w);
    } else {
      MappingKeepsDisk(h, disk, epoch, forMemory, w);
      var mapped := AfterMapping(disk, Seed(h, epoch), NodesOf(h, epoch), forMemory, w);
      FlushKeepsDisk(h, mapped, epoch, Mapped(forMemory, w), w);
    }
  }

  /** What an unsound build leaves: the nodes written, and behind them what the resize made of the old file. */
  lemma UnsoundBuildLeaves(h: Hashes, disk: Disk, epoch: nat, forMemory: bool, w: Writing)
    requires !Sound(h, epoch, forMemory, w)
    ensures var ident, nodes := Seed(h, epoch), NodesOf(h, epoch);
            var k := if w.canRewrite then w.written else 0;
            var built := Built(h, disk, epoch, forMemory, w);
            && k < |nodes| && ident in built
            && built[ident] == nodes[..k] + Resized(Entry(disk, ident), |nodes|)[k..]
  {
    hide NodesOf, Seed, CacheNodes, Resized;
  }

  function Twist(n: Node): (r: Node)
    ensures r != n
  {
    n[0 := if n[0] == 0 then 1 else 0]
  }

  /** A right directory, holding a file that is too long, that an unsound build makes wrong. */
  ghost function TooLong(h: Hashes, epoch: nat): Disk {
    var nodes := NodesOf(h, epoch);
    var last := Twist(nodes[|nodes| - 1]);
    map[Seed(h, epoch) := nodes[..|nodes| - 1] + [last, last]]
  }

  lemma TooLongIsRight(h: Hashes, epoch: nat)
    requires SeedsTellSizes(h) && epoch < EPOCHS
    ensures DiskOk(h, TooLong(h, epoch)) && |TooLong(h, epoch)[Seed(h, epoch)]| == CacheNodes(epoch) + 1
  {
    hide NodesOf, Seed, CacheNodes;
    var disk := TooLong(h, epoch);
    forall e: nat | e < EPOCHS && Seed(h, e) in disk
      ensures |disk[Seed(h, e)]| != CacheNodes(e)
    {
      SameSeedSameNodes(h, e, epoch);
    }
  }

  lemma UnsoundBuildIsWrong(h: Hashes, epoch: nat, forMemory: bool, w: Writing)
    requires !Sound(h, epoch, forMemory, w)
    ensures var ident, nodes := Seed(h, epoch), NodesOf(h, epoch);
            var built := Built(h, TooLong(h, epoch), epoch, forMemory, w);
            ident in built && |built[ident]| == |nodes| && built[ident] != nodes
  {
    hide NodesOf, Seed, CacheNodes, Built, Sound;
    var ident, nodes, disk := Seed(h, epoch), NodesOf(h, epoch), TooLong(h, epoch);
    UnsoundBuildLeaves(h, disk, epoch, forMemory, w);
    var k := if w.canRewrite then w.written else 0;
    var n := |nodes| - 1;
    var file := nodes[..k] + Resized(disk[ident], |nodes|)[k..];
    assert file[n] == disk[ident][n] == Twist(nodes[n]);
  }

  /** Building keeps every right directory right if and only if it is sound. */
  lemma BuildKeepsDiskIff(h: Hashes, epoch: nat, forMemory: bool, w: Writing)
    requires SeedsTellSizes(h) && epoch < EPOCHS
    ensures (forall disk :: DiskOk(h, disk) ==> DiskOk(h, Built(h, disk, epoch, forMemory, w)))
            <==> Sound(h, epoch, forMemory, w)
  {
    hide NodesOf, Seed, CacheNodes, Built, Sound, TooLong;
    if Sound(h, epoch, forMemory, w) {
      forall disk | DiskOk(h, disk)
        ensures DiskOk(h, Built(h, disk, epoch, forMemory, w))
      {
        SoundBuildKeepsDisk(h, disk, epoch, forMemory, w);
      }
    } else {
      TooLongIsRight(h, epoch);
      UnsoundBuildIsWrong(h, epoch, forMemory, w);
      assert !DiskOk(h, Built(h, TooLong(h, epoch), epoch, forMemory, w));
    }
  }

  // What reading and building do to the directory, in the terms of files alone.

  /** Looking up a file creates an empty one where files are mapped, and finds what has exactly the expected size. */
  lemma ReadingIs(disk: Disk, ident: H256, forMemory: bool, r: Reading, nodes: nat)
    ensures AfterReading(disk, ident, forMemory, r) ==
            if forMemory && r.canOpen && ident !in disk then disk[ident := []] else disk
    ensures Found(disk, ident, nodes, r).Some? <==> r.canOpen && r.canRead && ident in disk && |disk[ident]| == nodes
    ensures Found(disk, ident, nodes, r).Some? ==> Found(disk, ident, nodes, r).value == disk[ident]
  {
  }

  /**
   * Building touches two files: its own, and that of two epochs before, which goes if it can be removed. A build that
   * is mapped, or is written as a whole over nothing longer, leaves exactly the nodes of the epoch; one that may not
   * write leaves its file as it was.
   */
  lemma BuildIs(h: Hashes, disk: Disk, epoch: nat, forMemory: bool, w: Writing, other: H256)
    requires other != Seed(h, epoch)
    ensures var ident, nodes, built := Seed(h, epoch), NodesOf(h, epoch), Built(h, disk, epoch, forMemory, w);
            var stale := epoch >= 2 && w.canRemove && other == Seed(h, epoch - 2);
            && (stale ==> other !in built)
            && (!stale ==> (other in built <==> other in disk) && (other in disk ==> built[other] == disk[other]))
            && (epoch < 2 || !w.canRemove || Seed(h, epoch - 2) != ident ==>
                  && (forMemory && w.canOpen && w.canResize && w.canMap ==> ident in built && built[ident] == nodes)
                  && (w.canRewrite && w.written >= |nodes| && |Entry(disk, ident)| <= |nodes| ==>
                        ident in built && built[ident] == nodes)
                  && (!forMemory && !w.canRewrite ==>
                        (ident in built <==> ident in disk) && (ident in disk ==> built[ident] == disk[ident])))
  {
    hide NodesOf, Seed, Resized;
    var nodes := NodesOf(h, epoch);
    assert nodes[..|nodes|] == nodes;
  }
}
