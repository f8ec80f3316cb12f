/**
 * What every event does, case by case and in the terms of the state alone: when a download waits, starts, is put off or
 * dropped, when an update is installed, and when the client is switched off.
 */
module UpdaterSteps {
  import opened Numerals
  import opened Arithmetic
  import opened UpdaterModel
  import opened UpdaterBackoff

  // The step for a release that is already being handled.

  /** While the head is below the block that was drawn, nothing happens; from it on, the first download starts. */
  lemma WaitingStep(c: Config, s: State, env: Env, i: nat)
    requires s.latest.Some? && s.status.Waiting? && s.status.release == s.latest.value.track
    ensures env(i).block < s.status.block ==> Step(c, s, env, i) == s
    ensures env(i).block >= s.status.block ==>
              Step(c, s, env, i) ==
              s.(status := Fetching(s.status.release, s.status.binary, 1),
                 inFlight := s.inFlight + {Callback(s.latest.value, s.status.binary)},
                 attempts := s.attempts + [Attempt(s.status.release, s.status.binary, 1, env(i).now2)])
  {
  }

  /** While the backoff lasts, nothing happens; after it the download starts again with the next number. */
  lemma BackoffStep(c: Config, s: State, env: Env, i: nat)
    requires s.latest.Some? && s.status.FetchBackoff? && s.status.release == s.latest.value.track
    ensures env(i).now1 < s.status.until ==> Step(c, s, env, i) == s
    ensures env(i).now1 >= s.status.until && env(i).now2 >= s.status.until ==>
              Step(c, s, env, i) ==
              s.(status := Fetching(s.status.release, s.status.binary, s.status.retries + 1),
                 inFlight := s.inFlight + {Callback(s.latest.value, s.status.binary)},
                 attempts := s.attempts
                             + [Attempt(s.status.release, s.status.binary, s.status.retries + 1, env(i).now2)])
  {
  }

  /** A download in progress or an installed update is left alone, and so is everything once disabled. */
  lemma SettledStep(c: Config, s: State, env: Env, i: nat)
    requires s.latest.Some? ==>
               || s.status.Disabled?
               || ((s.status.Fetching? || s.status.Installed?) && s.status.release == s.latest.value.track)
    ensures Step(c, s, env, i) == s
  {
  }

  /** What is ready is installed at once under filter All, and under Critical if it is critical; otherwise it waits. */
  lemma ReadyStep(c: Config, s: State, env: Env, i: nat)
    requires s.latest.Some? && s.status.Ready? && s.status.release == s.latest.value.track
    ensures var r, wanted := s.status.release, c.filter.All? || (c.filter.Critical? && s.status.release.isCritical);
            Step(c, s, env, i) ==
            if !wanted then s
            else if env(i).write.PointerFailed? then s.(status := Disabled, pointer := env(i).write.left)
            else s.(status := Installed(r), pointer := Some(FileName(r.version)),
                    installs := s.installs + [Install(r, false)])
  {
  }

  // The step for a release that is new.

  /** Older than the running version: the first of major, minor and patch number that differs is smaller. */
  ghost predicate Older(v: Version, w: Version) {
    v.major < w.major || (v.major == w.major && (v.minor < w.minor || (v.minor == w.minor && v.patch < w.patch)))
  }

  /** Versions are ordered as the numbers with their parts as digits, to any base that is large enough. */
  lemma VersionsAsNumbers(v: Version, w: Version, b: nat)
    requires v.minor < b && v.patch < b && w.minor < b && w.patch < b
    ensures v.Less(w) <==> (v.major * b + v.minor) * b + v.patch < (w.major * b + w.minor) * b + w.patch
    ensures v.Less(w) <==> Older(v, w)
  {
    DigitsOrder(v.major, v.minor, w.major, w.minor, b);
    LastDigit(v.major * b + v.minor, v.patch, w.major * b + w.minor, w.patch, b, v, w);
  }

  lemma LastDigit(h: nat, l: nat, h': nat, l': nat, b: nat, v: Version, w: Version)
    requires l == v.patch < b && l' == w.patch < b
    requires h < h' <==> v.major < w.major || (v.major == w.major && v.minor < w.minor)
    requires h == h' <==> v.major == w.major && v.minor == w.minor
    ensures v.Less(w) <==> h * b + l < h' * b + l'
    ensures v.Less(w) <==> Older(v, w)
  {
    DigitsOrder(h, l, h', l', b);
  }

  lemma DigitsOrder(h: nat, l: nat, h': nat, l': nat, b: nat)
    requires l < b && l' < b
    ensures h * b + l < h' * b + l' <==> h < h' || (h == h' && l < l')
    ensures h * b + l == h' * b + l' <==> h == h' && l == l'
  {
    if h < h' {
      MulMono(h + 1, h', b);
      assert (h + 1) * b == h * b + b;
    } else if h > h' {
      MulMono(h' + 1, h, b);
      assert (h' + 1) * b == h' * b + b;
    }
  }

  ghost predicate Unwanted(c: Config, r: ReleaseInfo) {
    r.binary.None? || Older(r.version.version, c.running.version) || r.version.hash == c.running.hash
  }

  /** The clock has been turned back below the end of the backoff between the two readings. */
  ghost predicate TurnedBack(status: Status, r: Reading) {
    status.FetchBackoff? && r.now1 >= status.until > r.now2
  }

  /**
   * A release not handled yet is ignored if it is older, running already or without a checksum. If its file is there
   * it is ready. Otherwise, with downloading enabled, it waits: for the head itself if the release block is not found,
   * else for that block and a random part of the delay, which is the time to the fork but at most the configured one.
   */
  lemma NewReleaseStep(c: Config, s: State, env: Env, i: nat)
    requires s.latest.Some? && !s.status.Disabled?
    requires Holds(s.status) != Some(s.latest.value.track) || TurnedBack(s.status, env(i))
    ensures var o, r, head := s.latest.value, s.latest.value.track, env(i).block;
            var delay := if head <= o.fork && o.fork - head <= c.maxDelay then o.fork - head else c.maxDelay;
            && (Unwanted(c, r) ==> Step(c, s, env, i) == s)
            && (!Unwanted(c, r) && FileName(r.version) in s.files ==>
                  Step(c, s, env, i) == Step(c, s.(status := Ready(r)), env, i + 1))
            && (!Unwanted(c, r) && FileName(r.version) !in s.files ==>
                  && (!c.enableDownloading ==> Step(c, s, env, i) == s)
                  && (c.enableDownloading && env(i).releaseBlock.None? ==>
                        Step(c, s, env, i) == Step(c, s.(status := Waiting(r, r.binary.value, head)), env, i + 1))
                  && (c.enableDownloading && env(i).releaseBlock.Some? && delay == 0 ==>
                        Step(c, s, env, i) == s.(panicked := true))
                  && (c.enableDownloading && env(i).releaseBlock.Some? && delay > 0 ==>
                        var sum := env(i).releaseBlock.value + env(i).draw % delay;
                        var start := if sum < TWO_64 then sum else TWO_64 - 1;
                        var waiting := s.(status := Waiting(r, r.binary.value, start));
                        Step(c, s, env, i) == if start <= head then Step(c, waiting, env, i + 1) else waiting))
  {
    var o, r := s.latest.value, s.latest.value.track;
    assert r.version.version.Less(c.running.version) == Older(r.version.version, c.running.version);
    assert Eligible(c, r) == !Unwanted(c, r);
    assert Handle(c, s, o, env(i)).None?;
    hide FileName, Unwanted, Eligible;
  }

  // Events.

  /** A poll does nothing off its turn or before the chain is synchronised. */
  lemma PollGate(c: Config, s: State, e: Event)
    requires e.Poll? && !s.panicked
    requires !e.secure || e.block % (if c.frequency == 0 then 1 else c.frequency) != 0
    ensures Apply(c, s, e) == s
  {
  }

  /** Otherwise it takes over an offer, judges what the running version is capable of, and steps. */
  lemma PollIs(c: Config, s: State, e: Event)
    requires e.Poll? && !s.panicked && e.secure && e.block % (if c.frequency == 0 then 1 else c.frequency) == 0
    ensures e.offer.None? ==> Apply(c, s, e) == Step(c, s, e.env, 0)
    ensures e.offer.Some? ==>
              var o := e.offer.value;
              var outdated := o.thisFork.Some? && o.thisFork.value < o.fork;
              var late := outdated && e.block + 1 >= o.fork;
              var capability := if o.thisFork.None? then CapUnknown
                                else if !outdated then Capable
                                else if late then IncapableSince(o.fork)
                                else CapableUntil(o.fork);
              var s' := s.(latest := Some(o), capability := capability,
                           clientDisabled := s.clientDisabled || (late && c.requireConsensus));
              Apply(c, s, e) == Step(c, s', e.env, 0)
  {
    hide Step;
  }

  /** A callback is dropped unless it was issued for what is still the latest and a download is in progress. */
  lemma CallbackDropped(c: Config, s: State, e: Event)
    requires e.Fetched? && (s.latest != Some(e.callback.latest) || !s.status.Fetching?)
    ensures Apply(c, s, e) == s
  {
  }

  /** A failed download is put off by two to the number of tries in seconds, as 64 bits hold it, but at most a day. */
  lemma CallbackFailed(c: Config, s: State, e: Event)
    requires e.Fetched? && !s.panicked && e.callback in s.inFlight && !e.ok
    requires s.latest == Some(e.callback.latest) && s.status.Fetching?
    ensures var power := Pow2(s.status.retries) % 0x1_0000_0000_0000_0000;
            var wait := if power < 86400 then power else 86400;
            Apply(c, s, e) == s.(status := FetchBackoff(s.status.release, s.status.binary, s.status.retries,
                                                        e.now + wait as real))
  {
  }

  /** A good download is copied under the name of the release unless that is taken, and then steps as ready. */
  lemma CallbackDelivered(c: Config, s: State, e: Event)
    requires e.Fetched? && !s.panicked && e.callback in s.inFlight && e.ok
    requires s.latest == Some(e.callback.latest) && s.status.Fetching?
    ensures var name, ready := FileName(s.status.release.version), s.(status := Ready(s.status.release));
            && (name in s.files ==> Apply(c, s, e) == Step(c, ready, e.env, 0))
            && (name !in s.files && e.copy.Copied? ==>
                  Apply(c, s, e) == Step(c, ready.(files := s.files[name := e.callback.binary]), e.env, 0))
            && (name !in s.files && e.copy.CopyFailed? ==>
                  && Apply(c, s, e).status == Disabled
                  && Apply(c, s, e).files ==
                     (if e.copy.left.Some? then s.files[name := e.copy.left.value] else s.files))
  {
    hide Step, FileName;
  }

  /** An operator's call installs what is ready whatever the filter says, and does nothing else. */
  lemma ManualIs(c: Config, s: State, e: Event)
    requires e.Manual? && !s.panicked
    ensures !s.status.Ready? ==> Apply(c, s, e) == s
    ensures s.status.Ready? ==>
              var r := s.status.release;
              Apply(c, s, e) ==
              if e.write.PointerFailed? then s.(status := Disabled, pointer := e.write.left)
              else s.(status := Installed(r), pointer := Some(FileName(r.version)),
                      installs := s.installs + [Install(r, true)])
  {
  }

  // Runs.

  /** Every head read in the events is below a block. */
  ghost predicate HeadsBelow(events: seq<Event>, n: nat) {
    forall k, j: nat :: 0 <= k < |events| && !events[k].Manual? ==> events[k].env(j).block < n
  }

  lemma ApplyWaits(c: Config, s: State, e: Event)
    requires s.status.Waiting? && s.latest.Some? && s.latest.value.track == s.status.release
    requires e.Poll? && e.offer.Some? ==> e.offer.value.track == s.status.release
    requires !e.Manual? ==> e.env(0).block < s.status.block
    ensures var s' := Apply(c, s, e);
            && s'.status == s.status && s'.attempts == s.attempts && s'.inFlight == s.inFlight
            && s'.latest.Some? && s'.latest.value.track == s.status.release
  {
    if e.Poll? && !s.panicked {
      WaitingStep(c, Received(c, s, e.block, e.offer), e.env, 0);
      hide Step;
    }
  }

  /**
   * While a release waits for its block, only that release is offered and every head read is below the block, no
   * download is attempted: whatever is polled, called back or asked for by hand.
   */
  lemma {:induction false} NothingBeforeTheBlock(c: Config, s: State, events: seq<Event>)
    requires s.status.Waiting? && s.latest.Some? && s.latest.value.track == s.status.release
    requires OnlyOffers(s.status.release, events) && HeadsBelow(events, s.status.block)
    ensures var s' := Run(c, s, events);
            && s'.status == s.status && s'.attempts == s.attempts && s'.inFlight == s.inFlight
            && s'.latest.Some? && s'.latest.value.track == s.status.release
  {
    hide Apply;
    if events != [] {
      var before, e := events[..|events| - 1], events[|events| - 1];
      assert HeadsBelow(before, s.status.block);
      NothingBeforeTheBlock(c, s, before);
      assert !e.Manual? ==> events[|events| - 1].env(0).block < s.status.block;
      ApplyWaits(c, Run(c, s, before), e);
    }
  }

  lemma {:induction false} StepKeepsClient(c: Config, s: State, env: Env, i: nat)
    ensures Step(c, s, env, i).clientDisabled == s.clientDisabled && Step(c, s, env, i).capability == s.capability
    decreases Rank(s)
  {
    if s.latest.Some? && Handle(c, s, s.latest.value, env(i)).None? {
      TriggerRanks(c, s, env(i));
      var (s', again) := Trigger(c, s, s.latest.value, env(i));
      if again {
        hide Handle;
        StepKeepsClient(c, s', env, i + 1);
      }
    }
  }

  /** A poll on its turn that is offered a fork this version does not know, at the fork or the block before it. */
  ghost predicate Outdated(c: Config, e: Event) {
    && e.Poll? && e.secure && e.block % (if c.frequency == 0 then 1 else c.frequency) == 0
    && e.offer.Some? && e.offer.value.thisFork.Some? && e.offer.value.thisFork.value < e.offer.value.fork
    && e.block + 1 >= e.offer.value.fork
  }

  lemma ApplyClient(c: Config, s: State, e: Event)
    ensures Apply(c, s, e).clientDisabled <==>
              s.clientDisabled || (!s.panicked && c.requireConsensus && Outdated(c, e))
  {
    if e.Poll? && !s.panicked {
      StepKeepsClient(c, Received(c, s, e.block, e.offer), e.env, 0);
    } else if e.Fetched? && s.status.Fetching? {
      StepKeepsClient(c, Delivered(s, e.callback), e.env, 0);
    }
    hide Step;
  }

  /**
   * Over every run the client is switched off if and only if consensus is required and some poll, before any panic,
   * was offered a fork that the running version does not know, no earlier than the block before it.
   */
  lemma {:induction false} ClientDisabledIff(c: Config, files: map<string, H256>, pointer: Option<string>,
                                             events: seq<Event>)
    ensures Run(c, Init(files, pointer), events).clientDisabled <==>
            c.requireConsensus && exists k :: 0 <= k < |events| && Outdated(c, events[k])
                                              && !Run(c, Init(files, pointer), events[..k]).panicked
  {
    hide Apply, Outdated;
    if events != [] {
      var n := |events| - 1;
      var before := events[..n];
      ClientDisabledIff(c, files, pointer, before);
      ApplyClient(c, Run(c, Init(files, pointer), before), events[n]);
      forall k | 0 <= k < n
        ensures before[k] == events[k] && before[..k] == events[..k]
      {
      }
      if k :| 0 <= k < |before| && Outdated(c, before[k]) && !Run(c, Init(files, pointer), before[..k]).panicked {
        assert Outdated(c, events[k]) && !Run(c, Init(files, pointer), events[..k]).panicked;
      }
      if k :| 0 <= k < n && Outdated(c, events[k]) && !Run(c, Init(files, pointer), events[..k]).panicked {
        assert Outdated(c, before[k]) && !Run(c, Init(files, pointer), before[..k]).panicked;
      }
    }
  }
}
