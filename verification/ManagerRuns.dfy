/** Runs of the manager of light caches: calls and restarts, with the slots in memory and the files on disk. */
module ManagerRuns {
  import opened Numerals
  import opened EthashNodes
  import opened EthashSizes
  import opened Hashimoto
  import opened SeedHash
  import opened LightSlots
  import opened CacheFiles

  datatype Config = Config(transition: u64, forMemory: bool)

  datatype Manager = Manager(slots: Slots, disk: Disk)

  /** A call for a block, or a new manager over the files the last one has left. */
  datatype Event = Ask(block: u64, reading: Reading, writing: Writing) | Restart

  /** The nodes for an epoch, from its file if there is a good one and built anew otherwise, and the files then. */
  ghost function Obtain(h: Hashes, forMemory: bool, disk: Disk, epoch: nat, r: Reading, w: Writing)
    : (o: (Disk, seq<Node>))
    ensures |o.1| == CacheNodes(epoch) && Usable(o.1)
  {
    OddIsUsable(CacheNodes(epoch));
    var found := Found(disk, Seed(h, epoch), CacheNodes(epoch), r);
    var disk' := AfterReading(disk, Seed(h, epoch), forMemory, r);
    if found.Some? then (disk', found.value) else (Built(h, disk', epoch, forMemory, w), NodesOf(h, epoch))
  }

  /** `compute_light` up to the light it computes with. */
  ghost function Call(h: Hashes, c: Config, m: Manager, block: u64, r: Reading, w: Writing): (Manager, Light) {
    var (disk, cache) := Obtain(h, c.forMemory, m.disk, Epoch(block), r, w);
    var (slots, light) := Serve(m.slots, c.transition, block, LightOf(h, c.transition, block, cache));
    (Manager(slots, if Lookup(m.slots, c.transition, block).1.Some? then m.disk else disk), light)
  }

  ghost function Apply(h: Hashes, c: Config, m: Manager, e: Event): Manager {
    match e
    case Ask(block, r, w) => Call(h, c, m, block, r, w).0
    case Restart => Opened(m.disk)
  }

  /** A new manager over the files it finds. */
  function Opened(disk: Disk): Manager {
    Manager(EMPTY_SLOTS, disk)
  }

  ghost function Run(h: Hashes, c: Config, m: Manager, events: seq<Event>): Manager {
    if events == [] then m
    else Apply(h, c, Run(h, c, m, events[..|events| - 1]), events[|events| - 1])
  }

  /** The light that serves a block after a run. */
  ghost function ServedAfter(h: Hashes, c: Config, disk: Disk, events: seq<Event>,
                             block: u64, r: Reading, w: Writing): Light {
    Call(h, c, Run(h, c, Opened(disk), events), block, r, w).1
  }

  ghost function Asked(events: seq<Event>): iset<u64> {
    if events == [] then iset{}
    else
      var e := events[|events| - 1];
      Asked(events[..|events| - 1]) + if e.Ask? then iset{e.block} else iset{}
  }

  ghost predicate Right(h: Hashes, c: Config, served: iset<u64>, m: Manager) {
    DiskOk(h, m.disk) && SlotsOk(h, c.transition, served, m.slots)
  }

  lemma ObtainRight(h: Hashes, forMemory: bool, disk: Disk, epoch: nat, r: Reading, w: Writing)
    requires SeedsTellSizes(h) && DiskOk(h, disk) && epoch < EPOCHS
    ensures Obtain(h, forMemory, disk, epoch, r, w).1 == NodesOf(h, epoch)
    ensures Sound(h, epoch, forMemory, w) || Found(disk, Seed(h, epoch), CacheNodes(epoch), r).Some? ==>
              DiskOk(h, Obtain(h, forMemory, disk, epoch, r, w).0)
  {
    hide DiskOk, SeedsTellSizes, Seed, CacheNodes, NodesOf, Sound, Built, AfterReading;
    ReadingKeepsDisk(h, disk, epoch, forMemory, r);
    if Found(disk, Seed(h, epoch), CacheNodes(epoch), r).Some? {
      EntryOk(h, disk, epoch);
    } else if Sound(h, epoch, forMemory, w) {
      SoundBuildKeepsDisk(h, AfterReading(disk, Seed(h, epoch), forMemory, r), epoch, forMemory, w);
    }
  }

  /** A call on a right manager uses a light equal to a fresh one, and leaves a right manager if it is sound. */
  lemma CallRight(h: Hashes, c: Config, served: iset<u64>, m: Manager, block: u64, r: Reading, w: Writing)
    requires SeedsTellSizes(h) && Right(h, c, served, m)
    ensures var (m', light) := Call(h, c, m, block, r, w);
            && (m'.slots, light) == Serve(m.slots, c.transition, block, FreshLight(h, c.transition, block))
            && SlotsOk(h, c.transition, served + iset{block}, m'.slots)
            && Epoch(light.block) == Epoch(block) && light.block in served + iset{block}
            && light == FreshLight(h, c.transition, light.block)
            && (Sound(h, Epoch(block), c.forMemory, w) ==> Right(h, c, served + iset{block}, m'))
  {
    hide DiskOk, SeedsTellSizes, SlotsOk, Serve, Obtain, Epoch, Sound, NodesOf, LightOf;
    EpochInRange(block);
    ObtainRight(h, c.forMemory, m.disk, Epoch(block), r, w);
    ServeKeeps(h, c.transition, served, m.slots, block);
  }

  /** Calls drawn from a set of blocks, each with what the file system may do while its cache is built. */
  ghost predicate From(calls: iset<(u64, Writing)>, events: seq<Event>) {
    forall k :: 0 <= k < |events| && events[k].Ask? ==> (events[k].block, events[k].writing) in calls
  }

  ghost predicate AllSound(h: Hashes, c: Config, calls: iset<(u64, Writing)>) {
    forall call :: call in calls ==> Sound(h, Epoch(call.0), c.forMemory, call.1)
  }

  lemma {:induction false} RunRight(h: Hashes, c: Config, calls: iset<(u64, Writing)>, disk: Disk, events: seq<Event>)
    requires SeedsTellSizes(h) && DiskOk(h, disk) && From(calls, events) && AllSound(h, c, calls)
    ensures Right(h, c, Asked(events), Run(h, c, Opened(disk), events))
  {
    hide DiskOk, SeedsTellSizes, Call, Sound, Epoch, FreshLight;
    if events != [] {
      var before, e := events[..|events| - 1], events[|events| - 1];
      RunRight(h, c, calls, disk, before);
      if e.Ask? {
        assert (events[|events| - 1].block, events[|events| - 1].writing) in calls;
        var call := (e.block, e.writing);
        assert Sound(h, Epoch(call.0), c.forMemory, call.1);
        CallRight(h, c, Asked(before), Run(h, c, Opened(disk), before), e.block, e.reading, e.writing);
      }
    }
  }

  /** The light for a block holds the nodes of its epoch, and was built for a block of that epoch. */
  ghost predicate Fresh(h: Hashes, c: Config, light: Light, block: u64) {
    Epoch(light.block) == Epoch(block) && light == FreshLight(h, c.transition, light.block)
  }

  ghost predicate AlwaysFresh(h: Hashes, c: Config, calls: iset<(u64, Writing)>) {
    forall disk, events, block, r, w ::
      DiskOk(h, disk) && From(calls, events) && (block, w) in calls ==>
        Fresh(h, c, ServedAfter(h, c, disk, events, block, r, w), block)
  }

  /**
   * After any run of sound calls and of restarts, in which no epoch asked for straddles the transition, a call
   * computes the answer for its block, for every header and nonce.
   */
  lemma ComputesLikeFresh(h: Hashes, c: Config, calls: iset<(u64, Writing)>, disk: Disk, events: seq<Event>,
                          block: u64, r: Reading, w: Writing, header: H256, nonce: u64)
    requires SeedsTellSizes(h) && DiskOk(h, disk) && From(calls, events) && AllSound(h, c, calls)
    requires NoStraddle(c.transition, Asked(events) + iset{block})
    ensures var light := ServedAfter(h, c, disk, events, block, r, w);
            && Usable(light.cache)
            && ComputeWith(h, light, header, nonce, block) == Answer(h, c.transition, block, header, nonce)
  {
    hide DiskOk, SeedsTellSizes, Call, Sound, Epoch, FreshLight, ComputeWith, Run, Asked, Answer;
    FreshAnswers(h, c.transition, block, header, nonce);
    RunRight(h, c, calls, disk, events);
    CallRight(h, c, Asked(events), Run(h, c, Opened(disk), events), block, r, w);
    var b := ServedAfter(h, c, disk, events, block, r, w).block;
    assert b in Asked(events) + iset{block} && block in Asked(events) + iset{block};
    SameSideSameResult(h, c.transition, b, block, header, nonce);
  }

  /** An unsound build, a restart and the same call again: the file with other nodes is taken for a good one. */
  lemma UnsoundThenRestart(h: Hashes, c: Config, block: u64, w: Writing)
    requires SeedsTellSizes(h) && !Sound(h, Epoch(block), c.forMemory, w)
    ensures var ok := Reading(true, true);
            var events := [Ask(block, ok, w), Restart];
            && DiskOk(h, TooLong(h, Epoch(block)))
            && !Fresh(h, c, ServedAfter(h, c, TooLong(h, Epoch(block)), events, block, ok, w), block)
  {
    hide DiskOk, SeedsTellSizes, Sound, Epoch, NodesOf, Seed, CacheNodes, Built, TooLong;
    var ok, epoch := Reading(true, true), Epoch(block);
    var disk, ident := TooLong(h, epoch), Seed(h, epoch);
    EpochInRange(block);
    TooLongIsRight(h, epoch);
    UnsoundBuildIsWrong(h, epoch, c.forMemory, w);
    var built := Built(h, disk, epoch, c.forMemory, w);
    TooLongHasEntry(h, epoch);
    assert AfterReading(disk, ident, c.forMemory, ok) == disk;
    assert Obtain(h, c.forMemory, disk, epoch, ok, w).0 == built;
    var ask := Ask(block, ok, w);
    RunTwo(h, c, disk, ask, Restart);
    assert Run(h, c, Opened(disk), [ask, Restart]) == Opened(built);
    assert Obtain(h, c.forMemory, built, epoch, ok, w).1 == built[ident];
  }

  lemma TooLongHasEntry(h: Hashes, epoch: nat)
    ensures Seed(h, epoch) in TooLong(h, epoch)
  {
  }

  lemma RunOne(h: Hashes, c: Config, disk: Disk, e: Event)
    ensures Run(h, c, Opened(disk), [e]) == Apply(h, c, Opened(disk), e)
  {
    hide Apply;
    assert [e][..0] == [];
  }

  lemma RunTwo(h: Hashes, c: Config, disk: Disk, e: Event, f: Event)
    ensures Run(h, c, Opened(disk), [e, f]) == Apply(h, c, Apply(h, c, Opened(disk), e), f)
  {
    hide Apply;
    RunOne(h, c, disk, e);
    assert [e, f][..1] == [e];
  }

  /**
   * Over every run of calls from a set and of restarts, from every right directory and whatever is readable:
   * each light equals a fresh one of its epoch if and only if every build of the set is sound.
   */
  lemma AlwaysFreshIffSound(h: Hashes, c: Config, calls: iset<(u64, Writing)>)
    requires SeedsTellSizes(h)
    ensures AlwaysFresh(h, c, calls) <==> AllSound(h, c, calls)
  {
    hide DiskOk, SeedsTellSizes, Sound, Epoch, FreshLight, Call, TooLong;
    if AllSound(h, c, calls) {
      forall disk, events, block, r, w | DiskOk(h, disk) && From(calls, events) && (block, w) in calls
        ensures Fresh(h, c, ServedAfter(h, c, disk, events, block, r, w), block)
      {
        RunRight(h, c, calls, disk, events);
        CallRight(h, c, Asked(events), Run(h, c, Opened(disk), events), block, r, w);
      }
    } else {
      var call :| call in calls && !Sound(h, Epoch(call.0), c.forMemory, call.1);
      var ok := Reading(true, true);
      var events := [Ask(call.0, ok, call.1), Restart];
      assert From(calls, events);
      UnsoundThenRestart(h, c, call.0, call.1);
      assert (call.0, call.1) in calls;
    }
  }

  /**
   * The same without a restart, from an empty directory: the first call fails to map and to write everything,
   * the second is for the next epoch, and the third, for the first epoch again, computes with other nodes.
   * It takes a last node that is not all zeros, and seed hashes of neighbouring epochs that differ.
   */
  lemma FailedMappingServesWrong(h: Hashes, c: Config, b: u64, next: u64, r: Reading, w: Writing, w': Writing)
    requires Epoch(next) == Epoch(b) + 1
    requires !Sound(h, Epoch(b), c.forMemory, w)
    requires var nodes := NodesOf(h, Epoch(b)); nodes[|nodes| - 1] != ZERO_NODE
    requires Seed(h, Epoch(next)) != Seed(h, Epoch(b)) && Stale(h, Epoch(next)) != Some(Seed(h, Epoch(b)))
    ensures var light := ServedAfter(h, c, map[], [Ask(b, r, w), Ask(next, r, w')], b, Reading(true, true), w');
            |light.cache| == CacheNodes(Epoch(b)) && light.cache != NodesOf(h, Epoch(b))
  {
    hide Sound, Epoch, NodesOf, Seed, CacheNodes, Built, LightOf, Stale;
    var e, ident, nodes := Epoch(b), Seed(h, Epoch(b)), NodesOf(h, Epoch(b));
    var first := Run(h, c, Opened(map[]), [Ask(b, r, w)]);
    FirstCallLeaves(h, c, b, r, w);
    RunTwo(h, c, map[], Ask(b, r, w), Ask(next, r, w'));
    NextCallLeaves(h, c, first, b, next, r, w');
  }

  lemma FirstCallLeaves(h: Hashes, c: Config, b: u64, r: Reading, w: Writing)
    requires !Sound(h, Epoch(b), c.forMemory, w)
    requires var nodes := NodesOf(h, Epoch(b)); nodes[|nodes| - 1] != ZERO_NODE
    ensures var m := Run(h, c, Opened(map[]), [Ask(b, r, w)]);
            var ident, nodes := Seed(h, Epoch(b)), NodesOf(h, Epoch(b));
            && m == Apply(h, c, Opened(map[]), Ask(b, r, w))
            && m.slots.recentEpoch == Some(Epoch(b)) && m.slots.prevEpoch == None
            && m.disk.Keys == {ident} && |m.disk[ident]| == |nodes| && m.disk[ident] != nodes
  {
    hide Sound, Epoch, NodesOf, Seed, CacheNodes, Built, LightOf;
    var e, ident, nodes := Epoch(b), Seed(h, Epoch(b)), NodesOf(h, Epoch(b));
    RunOne(h, c, map[], Ask(b, r, w));
    var disk := AfterReading(map[], ident, c.forMemory, r);
    UnsoundBuildLeaves(h, disk, e, c.forMemory, w);
    ZerosBehind(nodes, if w.canRewrite then w.written else 0);
    assert Entry(disk, ident) == [];
    BuiltKeys(h, disk, e, c.forMemory, w);
  }

  lemma ZerosBehind(nodes: seq<Node>, k: nat)
    requires k < |nodes| && nodes[|nodes| - 1] != ZERO_NODE
    ensures nodes[..k] + Resized([], |nodes|)[k..] != nodes
  {
    assert (nodes[..k] + Resized([], |nodes|)[k..])[|nodes| - 1] == ZERO_NODE;
  }

  lemma BuiltKeys(h: Hashes, disk: Disk, epoch: nat, forMemory: bool, w: Writing)
    ensures Built(h, disk, epoch, forMemory, w).Keys <= disk.Keys + {Seed(h, epoch)}
    ensures forall ident :: ident in disk && ident != Seed(h, epoch) && Stale(h, epoch) != Some(ident) ==>
              ident in Built(h, disk, epoch, forMemory, w) && Built(h, disk, epoch, forMemory, w)[ident] == disk[ident]
  {
    hide NodesOf, Seed, Stale;
  }

  lemma NextCallLeaves(h: Hashes, c: Config, m: Manager, b: u64, next: u64, r: Reading, w: Writing)
    requires Epoch(next) == Epoch(b) + 1
    requires m.slots.recentEpoch == Some(Epoch(b)) && m.slots.prevEpoch == None
    requires m.disk.Keys == {Seed(h, Epoch(b))} && |m.disk[Seed(h, Epoch(b))]| == CacheNodes(Epoch(b))
    requires Seed(h, Epoch(next)) != Seed(h, Epoch(b)) && Stale(h, Epoch(next)) != Some(Seed(h, Epoch(b)))
    ensures var m' := Call(h, c, m, next, r, w).0;
            var light := Call(h, c, m', b, Reading(true, true), w).1;
            light.cache == m.disk[Seed(h, Epoch(b))]
  {
    hide Epoch, NodesOf, Seed, CacheNodes, Built, LightOf, Stale;
    var disk := AfterReading(m.disk, Seed(h, Epoch(next)), c.forMemory, r);
    BuiltKeys(h, disk, Epoch(next), c.forMemory, w);
    var m' := Call(h, c, m, next, r, w).0;
    assert m'.disk == Built(h, disk, Epoch(next), c.forMemory, w);
    assert Lookup(m'.slots, c.transition, b).1.None?;
  }
}
