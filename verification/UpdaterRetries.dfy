/**
 * The bound on retries is sharp: a run in which every download fails at once and is tried again as soon as the
 * backoff allows. Its attempts start exactly at the bound as long as the doubling does not wrap, and the one after
 * the 64th failure starts without any wait.
 */
module UpdaterRetries {
  import opened Numerals
  import opened Arithmetic
  import opened UpdaterModel
  import opened UpdaterContent
  import opened UpdaterBackoff

  /** Seconds the code makes the updater wait after the first `n` failures. */
  ghost function Waited(n: nat): real {
    if n == 0 then 0.0 else Waited(n - 1) + BackoffSeconds(n) as real
  }

  /** The first download, then `n` times a failure at once and the next download when its time has come. */
  ghost function Story(o: OperationsInfo, n: nat): seq<Event>
    requires o.track.binary.Some?
  {
    if n == 0 then [Announce(o, 0.0)]
    else Story(o, n - 1) + [Finish(o, false, Waited(n - 1)), Announce(o, Waited(n))]
  }

  /** Attempt `k` starts after the waits of all failures before it, and the last one is being fetched. */
  ghost predicate Told(o: OperationsInfo, n: nat, s: State)
    requires o.track.binary.Some?
  {
    && s.latest == Some(o) && !s.panicked
    && s.status == Fetching(o.track, o.track.binary.value, n + 1)
    && Callback(o, o.track.binary.value) in s.inFlight
    && |s.attempts| == n + 1
    && forall k :: 0 <= k <= n ==> s.attempts[k].at == Waited(k)
  }

  lemma FirstTold(c: Config, files: map<string, H256>, pointer: Option<string>, o: OperationsInfo)
    requires c.enableDownloading && Eligible(c, o.track) && FileName(o.track.version) !in files
    ensures Told(o, 0, Apply(c, Init(files, pointer), Announce(o, 0.0)))
  {
    AnnounceStartsDownload(c, Init(files, pointer), o, 0.0);
  }

  lemma NextTold(c: Config, s: State, o: OperationsInfo, n: nat)
    requires o.track.binary.Some? && Told(o, n, s)
    ensures Told(o, n + 1, Apply(c, Apply(c, s, Finish(o, false, Waited(n))), Announce(o, Waited(n + 1))))
  {
    hide BackoffSeconds;
    var t := Waited(n + 1);
    var s1 := Apply(c, s, Finish(o, false, Waited(n)));
    assert s1 == s.(status := FetchBackoff(o.track, o.track.binary.value, n + 1, t));
    var s2 := Received(c, s1, 0, Some(o));
    assert Handle(c, s2, o, Quiet(0, t, None)(0)) == Some(StartFetch(s2, o, o.track.binary.value, n + 2, t));
  }

  lemma {:induction false} StoryTold(c: Config, files: map<string, H256>, pointer: Option<string>,
                                     o: OperationsInfo, n: nat)
    requires c.enableDownloading && Eligible(c, o.track) && FileName(o.track.version) !in files
    ensures Told(o, n, Run(c, Init(files, pointer), Story(o, n)))
  {
    hide Told, Apply;
    var s0, events := Init(files, pointer), Story(o, n);
    if n == 0 {
      FirstTold(c, files, pointer, o);
      assert events[..0] == [];
    } else {
      var before, fail, poll := Story(o, n - 1), Finish(o, false, Waited(n - 1)), Announce(o, Waited(n));
      StoryTold(c, files, pointer, o, n - 1);
      NextTold(c, Run(c, s0, before), o, n - 1);
      assert events == before + [fail] + [poll];
      assert events[..|events| - 1] == before + [fail];
      assert (before + [fail])[..|before|] == before;
    }
  }

  /** One more event at the end of a run, not before the last one and offering nothing else. */
  lemma RegularWith(events: seq<Event>, r: ReleaseInfo, e: Event)
    requires MonotoneClock(events) && OnlyOffers(r, events) && events != []
    requires Within(e) && events[|events| - 1].ended <= e.began
    requires e.Poll? && e.offer.Some? ==> e.offer.value.track == r
    ensures MonotoneClock(events + [e]) && OnlyOffers(r, events + [e])
  {
    hide Within;
    var all := events + [e];
    forall k | 0 < k < |all|
      ensures all[k - 1].ended <= all[k].began
    {
      assert k < |events| ==> all[k] == events[k] && all[k - 1] == events[k - 1];
    }
  }

  lemma {:induction false} StoryRegular(o: OperationsInfo, n: nat)
    requires o.track.binary.Some?
    ensures MonotoneClock(Story(o, n)) && OnlyOffers(o.track, Story(o, n))
    ensures Story(o, n) != [] && Story(o, n)[|Story(o, n)| - 1].ended == Waited(n)
  {
    hide BackoffSeconds;
    if n > 0 {
      StoryRegular(o, n - 1);
      var before, fail, poll := Story(o, n - 1), Finish(o, false, Waited(n - 1)), Announce(o, Waited(n));
      assert Within(fail) && Within(poll) && fail.ended <= poll.began;
      assert Story(o, n) == before + [fail] + [poll];
      hide Story, Within, Finish, Announce, Waited;
      RegularWith(before, o.track, fail);
      RegularWith(before + [fail], o.track, poll);
    }
  }

  lemma {:induction false} WaitedIsTotal(k: nat)
    requires k < 64
    ensures Waited(k) == TotalBackoff(k) as real
  {
    hide CappedDoubling, BackoffSeconds;
    if k > 0 {
      WaitedIsTotal(k - 1);
      BackoffDoublesIff(k);
    }
  }

  lemma NoWaitAfter64()
    ensures BackoffSeconds(64) == 0 && Waited(64) == Waited(63) && TotalBackoff(64) > TotalBackoff(63)
  {
    Pow2OfWord();
    Pow2Bound(64);
  }

  /**
   * For every eligible release that is not on disk there is a run under a monotone clock, offering only that
   * release, in which each of the first 64 attempts starts exactly at the bound, and attempt 65 starts together
   * with attempt 64, a day before the bound. So the bound on `k` cannot be dropped.
   */
  lemma RetryBoundIsSharp(c: Config, files: map<string, H256>, pointer: Option<string>, o: OperationsInfo)
    returns (events: seq<Event>)
    requires c.enableDownloading && Eligible(c, o.track) && FileName(o.track.version) !in files
    ensures MonotoneClock(events) && OnlyOffers(o.track, events)
    ensures var attempts := Run(c, Init(files, pointer), events).attempts;
            && |attempts| == 65
            && (forall k :: 0 <= k < 64 ==> attempts[k].at == attempts[0].at + TotalBackoff(k) as real)
            && attempts[64].at == attempts[63].at < attempts[0].at + TotalBackoff(64) as real
  {
    hide Run, Story, MonotoneClock, OnlyOffers, Waited, TotalBackoff;
    events := Story(o, 64);
    StoryTold(c, files, pointer, o, 64);
    StoryRegular(o, 64);
    SharpTimes(Run(c, Init(files, pointer), events).attempts);
  }

  lemma SharpTimes(attempts: seq<Attempt>)
    requires |attempts| == 65 && forall k :: 0 <= k <= 64 ==> attempts[k].at == Waited(k)
    ensures forall k :: 0 <= k < 64 ==> attempts[k].at == attempts[0].at + TotalBackoff(k) as real
    ensures attempts[64].at == attempts[63].at < attempts[0].at + TotalBackoff(64) as real
  {
    NoWaitAfter64();
    WaitedIsTotal(0);
    assert TotalBackoff(0) == 0;
    hide Waited, TotalBackoff;
    forall k | 0 <= k < 64
      ensures Waited(k) == TotalBackoff(k) as real
    {
      WaitedIsTotal(k);
    }
  }
}
