/** The manager of light caches: two slots in memory, cache files on disk, and the memo of seed hashes. */
module EthashManager {
  import opened Numerals
  import opened EthashNodes
  import opened EthashSizes
  import opened NodeCache
  import opened Hashimoto
  import opened Progpow
  import opened SeedHash
  import opened LightSlots
  import opened CacheFiles
  import opened ManagerRuns

  /** Lights in the slots can be computed with, whatever their nodes are. */
  ghost predicate SlotsUsable(s: Slots) {
    && (s.recent.Some? ==> Usable(s.recent.value.cache))
    && (s.prev.Some? ==> Usable(s.prev.value.cache))
  }

  class EthashManager {
    const h: Hashes
    const config: Config
    const seeds: SeedHashCompute
    var disk: Disk
    var recentEpoch: Option<nat>
    var recent: Option<Light>
    var prevEpoch: Option<nat>
    var prev: Option<Light>
    ghost var served: iset<u64>

    ghost function CurrentSlots(): Slots
      reads this
    {
      Slots(recentEpoch, recent, prevEpoch, prev)
    }

    ghost function View(): Manager
      reads this
    {
      Manager(CurrentSlots(), disk)
    }

    ghost predicate Valid()
      reads this, seeds
    {
      seeds.h == h && seeds.Valid() && SlotsUsable(CurrentSlots())
    }

    constructor (h: Hashes, config: Config, disk: Disk)
      ensures Valid() && fresh(seeds) && this.h == h && this.config == config
      ensures View() == Opened(disk) && served == Asked([])
      ensures DiskOk(h, disk) ==> Right(h, config, served, View())
    {
      this.h, this.config := h, config;
      this.disk := disk;
      seeds := new SeedHashCompute(h);
      recentEpoch, recent, prevEpoch, prev := None, None, None, None;
      served := iset{};
    }

    /** `NodeCacheBuilder::from_file`: a file counts only if it has the size expected for the epoch. */
    method CacheFromFile(block: u64, r: Reading) returns (cache: Option<seq<Node>>)
      requires Valid()
      modifies this`disk, seeds
      ensures Valid() && disk == AfterReading(old(disk), Seed(h, Epoch(block)), config.forMemory, r)
      ensures cache == Found(old(disk), Seed(h, Epoch(block)), CacheNodes(Epoch(block)), r)
    {
      hide SlotsUsable, CacheNodes, Seed;
      var ident := seeds.HashEpoch(Epoch(block));
      if !r.canOpen {
        return None;
      }
      if config.forMemory && ident !in disk {
        disk := disk[ident := []];
      }
      assert disk == AfterReading(old(disk), ident, config.forMemory, r);
      if !r.canRead || ident !in disk {
        return None;
      }
      var expected := GetCacheSize(block);
      if NODE_BYTES * |disk[ident]| == expected {
        return Some(disk[ident]);
      }
      return None;
    }

    /** `NodeCacheBuilder::new_cache`: nodes filled in a mapped file of exactly their size, or in memory. */
    method NewCache(block: u64, w: Writing) returns (cache: seq<Node>, mapped: bool)
      requires Valid()
      modifies this`disk, seeds
      ensures Valid() && cache == NodesOf(h, Epoch(block)) && mapped == Mapped(config.forMemory, w)
      ensures disk == AfterMapping(old(disk), Seed(h, Epoch(block)), cache, config.forMemory, w)
    {
      hide SlotsUsable, CacheNodes, Seed, CacheOf;
      var ident := seeds.HashEpoch(Epoch(block));
      var size := GetCacheSize(block);
      var memory := new Node[size / NODE_BYTES];
      InitializeMemory(h, memory, ident);
      cache := memory[..];
      mapped := false;
      if config.forMemory && w.canOpen {
        if ident !in disk {
          disk := disk[ident := []];
        }
        if w.canResize {
          disk := disk[ident := Resized(disk[ident], |cache|)];
          if w.canMap {
            mapped := true;
            disk := disk[ident := cache];
          }
        }
      }
      assert disk == AfterMapping(old(disk), ident, cache, config.forMemory, w);
    }

    /** `NodeCache::flush`: drop the file of two epochs before, then write this one over what is there. */
    method Flush(epoch: nat, cache: seq<Node>, mapped: bool, w: Writing)
      requires Valid()
      modifies this`disk, seeds
      ensures Valid()
      ensures disk == AfterFlush(old(disk), Seed(h, epoch), Stale(h, epoch), cache, mapped, w)
    {
      hide SlotsUsable, Seed;
      if epoch >= 2 {
        var last := seeds.HashEpoch(epoch - 2);
        if w.canRemove {
          disk := disk - {last};
        }
      }
      if !mapped && w.canRewrite {
        var ident := seeds.HashEpoch(epoch);
        var old' := if ident in disk then disk[ident] else [];
        disk := disk[ident := Overwritten(old', cache, Written(cache, w))];
      }
    }

    /** The algorithm a light is built with depends on the block it is built for. */
    method BuildLight(block: u64, cache: seq<Node>) returns (light: Light)
      requires Usable(cache)
      ensures light == LightOf(h, config.transition, block, cache)
    {
      hide CDagOf;
      if block >= config.transition {
        var cdag := GenerateCDag(h, cache);
        light := Light(block, cache, ProgpowHashing(cdag));
      } else {
        light := Light(block, cache, HashimotoHash);
      }
    }

    /** The light for a block, from its file if there is a good one and built anew otherwise. */
    method LoadOrBuild(block: u64, r: Reading, w: Writing) returns (light: Light)
      requires Valid()
      modifies this`disk, seeds
      ensures Valid()
      ensures var (disk', cache) := Obtain(h, config.forMemory, old(disk), Epoch(block), r, w);
              disk == disk' && light == LightOf(h, config.transition, block, cache)
    {
      hide Valid, LightOf, NodesOf, AfterReading, AfterMapping, AfterFlush, Seed, CacheNodes;
      var found := CacheFromFile(block, r);
      if found.Some? {
        OddIsUsable(CacheNodes(Epoch(block)));
        light := BuildLight(block, found.value);
      } else {
        var cache, mapped := NewCache(block, w);
        light := BuildLight(block, cache);
        Flush(Epoch(block), cache, mapped, w);
      }
    }

    /** Take the light held for the epoch of the block, swapping the slots when the older one is asked for again. */
    method LookupLight(block: u64) returns (light: Option<Light>)
      modifies this`recentEpoch, this`recent, this`prevEpoch, this`prev
      ensures (CurrentSlots(), light) == Lookup(old(CurrentSlots()), config.transition, block)
    {
      var epoch := Epoch(block);
      if block == config.transition {
        return None;
      }
      if recentEpoch == Some(epoch) {
        return recent;
      }
      if prevEpoch == Some(epoch) {
        if Later(recentEpoch, prevEpoch) {
          return None;
        }
        var t := prevEpoch;
        prevEpoch := recentEpoch;
        recentEpoch := t;
        var u := prev;
        prev := recent;
        recent := u;
        return recent;
      }
      return None;
    }

    /** `Light::compute`. */
    method Compute(light: Light, header: H256, nonce: u64, block: u64) returns (r: ProofOfWork)
      requires Usable(light.cache)
      ensures r == ComputeWith(h, light, header, nonce, block)
      ensures light.algorithm.ProgpowHashing? ==>
                r == ProgpowHash(h, header, nonce, block, light.cache, light.algorithm.cdag)
      ensures light.algorithm.HashimotoHash? ==>
                var size := MIX_BYTES * DataPages(Epoch(light.block));
                Pages(size) > 0 && r == Hashimoto.Hashimoto(h, light.cache, size, header, nonce)
    {
      hide ProgpowHash, Hashimoto.Hashimoto;
      PagesPositive(Epoch(light.block));
      match light.algorithm {
        case ProgpowHashing(cdag) => r := ComputeProgpow(h, header, nonce, block, light.cache, cdag);
        case HashimotoHash => r := LightCompute(h, light.cache, light.block, header, nonce);
      }
    }

    /** Slots and files move as in the runs of the manager, and the light that comes out is theirs. */
    method TakeLight(block: u64, r: Reading, w: Writing) returns (light: Light)
      requires Valid()
      modifies this, seeds
      ensures Valid() && served == old(served)
      ensures (View(), light) == Call(h, config, old(View()), block, r, w) && Usable(light.cache)
    {
      hide LightOf, Obtain, Epoch;
      var held := LookupLight(block);
      if held.Some? {
        light := held.value;
      } else {
        light := LoadOrBuild(block, r, w);
        prevEpoch, recentEpoch := recentEpoch, Some(Epoch(block));
        prev, recent := recent, Some(light);
      }
    }

    /**
     * `compute_light`. On a manager that is right, and as long as no epoch asked for so far straddles the
     * transition, the result is the answer for this block. The manager stays right
     * if the build is sound; `AlwaysFreshIffSound` shows that this cannot be asked for less.
     */
    method ComputeLight(block: u64, header: H256, nonce: u64, reading: Reading, writing: Writing)
      returns (r: ProofOfWork, ghost light: Light)
      requires Valid()
      modifies this, seeds
      ensures Valid() && served == old(served) + iset{block}
      ensures (View(), light) == Call(h, config, old(View()), block, reading, writing)
      ensures Usable(light.cache) && r == ComputeWith(h, light, header, nonce, block)
      ensures SeedsTellSizes(h) && Right(h, config, old(served), old(View())) ==>
                && Fresh(h, config, light, block)
                && (NoStraddle(config.transition, served) ==>
                      r == Answer(h, config.transition, block, header, nonce))
                && (Sound(h, Epoch(block), config.forMemory, writing) ==> Right(h, config, served, View()))
    {
      hide FreshLight, ComputeWith, Epoch, Right, SeedsTellSizes, Call, Sound, SlotsUsable, Answer;
      hide ProgpowHash, Hashimoto.Hashimoto, DataPages, Pages;
      FreshAnswers(h, config.transition, block, header, nonce);
      var taken := TakeLight(block, reading, writing);
      light := taken;
      served := served + iset{block};
      if SeedsTellSizes(h) && Right(h, config, old(served), old(View())) {
        CallRight(h, config, old(served), old(View()), block, reading, writing);
        if NoStraddle(config.transition, served) {
          assert light.block in served && block in served;
          SameSideSameResult(h, config.transition, light.block, block, header, nonce);
        }
      }
      r := Compute(taken, header, nonce, block);
    }

    /**
     * Any calls, one after the other: the object runs as the model does; and from a right manager, with sound builds
     * and no straddling epoch, every result is the answer for its block.
     */
    method Drive(requests: seq<Request>) returns (results: seq<ProofOfWork>)
      requires Valid()
      modifies this, seeds
      ensures Valid() && |results| == |requests|
      ensures View() == Run(h, config, old(View()), Asks(requests))
      ensures served == old(served) + Asked(Asks(requests))
      ensures SeedsTellSizes(h) && Right(h, config, old(served), old(View())) && RequestsSound(h, config, requests)
              && NoStraddle(config.transition, served) ==>
                forall k :: 0 <= k < |requests| ==> results[k] == AnswerTo(h, config, requests[k])
    {
      hide Right, SeedsTellSizes, Call, Sound, Answer, SlotsUsable, NoStraddle, ComputeWith, FreshLight, Fresh, Epoch;
      ghost var right := SeedsTellSizes(h) && Right(h, config, served, View()) && RequestsSound(h, config, requests);
      results := [];
      assert Asks(requests)[..0] == [] && Asked([]) == iset{};
      hide Run, Asked, Asks;
      for i := 0 to |requests|
        invariant Valid() && |results| == i
        invariant View() == Run(h, config, old(View()), Asks(requests)[..i])
        invariant served == old(served) + Asked(Asks(requests)[..i])
        invariant right ==> Right(h, config, served, View())
        invariant right && NoStraddle(config.transition, served) ==>
                    forall k :: 0 <= k < i ==> results[k] == AnswerTo(h, config, requests[k])
      {
        var q := requests[i];
        ghost var before := served;
        OneMoreAsk(h, config, old(View()), requests, i);
        var r, light := ComputeLight(q.block, q.header, q.nonce, q.reading, q.writing);
        results := results + [r];
        FewerStraddle(config.transition, before, served);
      }
      assert Asks(requests)[..|requests|] == Asks(requests);
    }
  }

  datatype Request = Request(block: u64, header: H256, nonce: u64, reading: Reading, writing: Writing)

  function AskOf(q: Request): Event {
    Ask(q.block, q.reading, q.writing)
  }

  function Asks(requests: seq<Request>): (events: seq<Event>)
    ensures |events| == |requests|
  {
    seq(|requests|, k requires 0 <= k < |requests| => AskOf(requests[k]))
  }

  ghost predicate RequestsSound(h: Hashes, c: Config, requests: seq<Request>) {
    forall k :: 0 <= k < |requests| ==> Sound(h, Epoch(requests[k].block), c.forMemory, requests[k].writing)
  }

  lemma OneMoreAsk(h: Hashes, c: Config, m: Manager, requests: seq<Request>, i: nat)
    requires i < |requests|
    ensures var before, after, q := Asks(requests)[..i], Asks(requests)[..i + 1], requests[i];
            && Run(h, c, m, after) == Call(h, c, Run(h, c, m, before), q.block, q.reading, q.writing).0
            && Asked(after) == Asked(before) + iset{q.block}
  {
    hide Call;
    assert Asks(requests)[..i + 1][..i] == Asks(requests)[..i];
  }

  ghost function AnswerTo(h: Hashes, c: Config, q: Request): ProofOfWork {
    Answer(h, c.transition, q.block, q.header, q.nonce)
  }

  lemma FewerStraddle(transition: u64, some: iset<u64>, all: iset<u64>)
    requires some <= all
    ensures NoStraddle(transition, all) ==> NoStraddle(transition, some)
  {
  }
}
