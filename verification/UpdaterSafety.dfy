/** What holds in every state the updater can reach, whatever is offered and whenever callbacks arrive. */
module UpdaterSafety {
  import opened Numerals
  import opened UpdaterModel

  /** Any release the updater holds is one it may install, with the checksum it was published with. */
  ghost predicate StatusOk(c: Config, s: Status) {
    && (Holds(s).Some? ==> Eligible(c, Holds(s).value))
    && (s.Waiting? || s.Fetching? || s.FetchBackoff? ==> c.enableDownloading && s.release.binary == Some(s.binary))
  }

  /** A download is only ever started for an eligible release and with that release's checksum. */
  ghost predicate CallbackOk(c: Config, cb: Callback) {
    c.enableDownloading && Eligible(c, cb.latest.track) && cb.latest.track.binary == Some(cb.binary)
  }

  /** The status follows the latest release as soon as that one could be downloaded. */
  ghost predicate Follows(c: Config, s: State) {
    s.latest.Some? && Eligible(c, s.latest.value.track) && c.enableDownloading && !s.panicked
    ==> s.status.Disabled? || Holds(s.status) == Some(s.latest.value.track)
  }

  ghost predicate FilesOk(s: State) {
    && (s.status.Ready? || s.status.Installed? ==> FileName(s.status.release.version) in s.files)
    && (s.status.Installed? ==> s.pointer == Some(FileName(s.status.release.version)))
  }

  ghost predicate InstallsOk(c: Config, s: State) {
    && (forall k :: 0 <= k < |s.installs| ==> s.installs[k].manual || AutoInstall(c, s.installs[k].release))
    && (s.status.Installed? ==> s.installs != [] && s.installs[|s.installs| - 1].release == s.status.release)
  }

  ghost predicate Settled(c: Config, s: State) {
    && StatusOk(c, s.status)
    && (forall cb :: cb in s.inFlight ==> CallbackOk(c, cb))
    && FilesOk(s)
    && InstallsOk(c, s)
  }

  ghost predicate Inv(c: Config, s: State) {
    Settled(c, s) && Follows(c, s)
  }

  lemma HandleKeeps(c: Config, s: State, r: Reading)
    requires Settled(c, s) && s.latest.Some? && !s.panicked
    ensures var h := Handle(c, s, s.latest.value, r);
            h.Some? ==> Settled(c, h.value) && Follows(c, h.value)
  {
  }

  lemma TriggerKeeps(c: Config, s: State, r: Reading)
    requires Settled(c, s) && s.latest.Some? && !s.panicked
    ensures var (s', again) := Trigger(c, s, s.latest.value, r);
            Settled(c, s') && Follows(c, s') && (again ==> !s'.panicked)
  {
  }

  lemma {:induction false} StepKeeps(c: Config, s: State, env: Env, i: nat)
    requires Settled(c, s) && !s.panicked
    ensures Inv(c, Step(c, s, env, i))
    decreases Rank(s)
  {
    if s.latest.Some? {
      HandleKeeps(c, s, env(i));
      if Handle(c, s, s.latest.value, env(i)).None? {
        TriggerKeeps(c, s, env(i));
        var (s', again) := Trigger(c, s, s.latest.value, env(i));
        if again {
          StepKeeps(c, s', env, i + 1);
        }
      }
    }
  }

  lemma FetchedKeeps(c: Config, s: State, e: Event)
    requires Inv(c, s) && !s.panicked && e.Fetched? && Accepts(s, e.callback)
    ensures Inv(c, Apply(c, s, e))
  {
    StepKeeps(c, Delivered(s, e.callback), e.env, 0);
  }

  lemma ApplyKeeps(c: Config, s: State, e: Event)
    requires Inv(c, s)
    ensures Inv(c, Apply(c, s, e))
  {
    if !s.panicked {
      if e.Poll? {
        StepKeeps(c, Received(c, s, e.block, e.offer), e.env, 0);
      } else if e.Fetched? && Accepts(s, e.callback) {
        FetchedKeeps(c, s, e);
      }
    }
  }

  lemma {:induction false} RunKeeps(c: Config, files: map<string, H256>, pointer: Option<string>, events: seq<Event>)
    ensures Inv(c, Run(c, Init(files, pointer), events))
  {
    if events != [] {
      RunKeeps(c, files, pointer, events[..|events| - 1]);
      ApplyKeeps(c, Run(c, Init(files, pointer), events[..|events| - 1]), events[|events| - 1]);
    }
  }

  /**
   * When `on_fetch` passes both its checks, the release being fetched is the one its own closure captured,
   * and the hash it downloaded is that release's checksum.
   */
  lemma AcceptedFetchIsItsOwn(c: Config, files: map<string, H256>, pointer: Option<string>, events: seq<Event>,
                              cb: Callback)
    requires var s := Run(c, Init(files, pointer), events);
             cb in s.inFlight && Accepts(s, cb) && !s.panicked
    ensures var s := Run(c, Init(files, pointer), events);
            && s.status.release == cb.latest.track
            && s.status.binary == cb.binary
            && s.status.release.binary == Some(cb.binary)
  {
    RunKeeps(c, files, pointer, events);
  }

  /** In every reachable state: what is ready is in the directory, and what is installed is what `latest` names. */
  lemma ReadyAndInstalledAreOnDisk(c: Config, files: map<string, H256>, pointer: Option<string>, events: seq<Event>)
    ensures var s := Run(c, Init(files, pointer), events);
            && (s.status.Ready? ==> FileName(s.status.release.version) in s.files)
            && (s.status.Installed? ==>
                  && FileName(s.status.release.version) in s.files
                  && s.pointer == Some(FileName(s.status.release.version)))
  {
    RunKeeps(c, files, pointer, events);
  }

  /** No status ever holds the running build or an older one, nor a checksum that is not the release's own. */
  lemma NeverHoldsOldRelease(c: Config, files: map<string, H256>, pointer: Option<string>, events: seq<Event>)
    ensures var s := Run(c, Init(files, pointer), events).status;
            && (Holds(s).Some? ==>
                  && !Holds(s).value.version.version.Less(c.running.version)
                  && Holds(s).value.version.hash != c.running.hash)
            && (s.Waiting? || s.Fetching? || s.FetchBackoff? ==> s.release.binary == Some(s.binary))
  {
    RunKeeps(c, files, pointer, events);
  }

  lemma {:induction false} StepKeepsFiles(c: Config, s: State, env: Env, i: nat)
    ensures Step(c, s, env, i).files == s.files && Step(c, s, env, i).latest == s.latest
    decreases Rank(s)
  {
    if s.latest.Some? && Handle(c, s, s.latest.value, env(i)).None? {
      var (s', again) := Trigger(c, s, s.latest.value, env(i));
      if again {
        StepKeepsFiles(c, s', env, i + 1);
      }
    }
  }

  /** `updater_step` adds at most one installation, and marks it as its own. */
  lemma {:induction false} StepInstalls(c: Config, s: State, env: Env, i: nat)
    ensures var s' := Step(c, s, env, i);
            || s'.installs == s.installs
            || (s'.status.Installed? && s'.installs == s.installs + [Install(s'.status.release, false)])
    decreases Rank(s)
  {
    if s.latest.Some? && Handle(c, s, s.latest.value, env(i)).None? {
      var (s', again) := Trigger(c, s, s.latest.value, env(i));
      if again {
        StepInstalls(c, s', env, i + 1);
      }
    }
  }

  /** A disabled updater stays disabled, from any state and under any events. */
  lemma {:induction false} DisabledForever(c: Config, s: State, events: seq<Event>)
    requires s.status.Disabled?
    ensures Run(c, s, events).status.Disabled?
    ensures Run(c, s, events).files == s.files && Run(c, s, events).pointer == s.pointer
  {
    if events != [] {
      DisabledForever(c, s, events[..|events| - 1]);
    }
  }

  ghost predicate NoneManual(installs: seq<Install>) {
    forall k :: 0 <= k < |installs| ==> !installs[k].manual
  }

  lemma ApplyInstalls(c: Config, s: State, e: Event)
    requires !e.Manual? && NoneManual(s.installs)
    ensures NoneManual(Apply(c, s, e).installs)
  {
    if e.Poll? {
      StepInstalls(c, Received(c, s, e.block, e.offer), e.env, 0);
    } else if s.status.Fetching? {
      StepInstalls(c, Delivered(s, e.callback), e.env, 0);
    }
  }

  lemma {:induction false} NoManualInstalls(c: Config, s: State, events: seq<Event>)
    requires s.installs == []
    requires forall k :: 0 <= k < |events| ==> !events[k].Manual?
    ensures NoneManual(Run(c, s, events).installs)
  {
    if events != [] {
      NoManualInstalls(c, s, events[..|events| - 1]);
      ApplyInstalls(c, Run(c, s, events[..|events| - 1]), events[|events| - 1]);
    }
  }

  /**
   * As long as nobody calls `execute_upgrade` by hand, the filter decides: nothing is ever installed under
   * `None`, and only critical releases are under `Critical`.
   */
  lemma FilterDecidesInstalls(c: Config, files: map<string, H256>, pointer: Option<string>, events: seq<Event>)
    requires forall k :: 0 <= k < |events| ==> !events[k].Manual?
    ensures var s := Run(c, Init(files, pointer), events);
            && (c.filter.NoUpdates? ==> s.installs == [] && !s.status.Installed?)
            && (c.filter.Critical? ==>
                  && (forall k :: 0 <= k < |s.installs| ==> s.installs[k].release.isCritical)
                  && (s.status.Installed? ==> s.status.release.isCritical))
  {
    RunKeeps(c, files, pointer, events);
    NoManualInstalls(c, Init(files, pointer), events);
    var s := Run(c, Init(files, pointer), events);
    if s.installs != [] {
      assert !s.installs[0].manual && AutoInstall(c, s.installs[0].release);
    }
  }

  /** `updater_step` calls itself at most once: the outcome depends on two readings of its surroundings only. */
  lemma StepReadsTwice(c: Config, s: State, env: Env, env': Env, i: nat)
    requires env(i) == env'(i) && env(i + 1) == env'(i + 1)
    ensures Step(c, s, env, i) == Step(c, s, env', i)
  {
    if s.latest.Some? && Handle(c, s, s.latest.value, env(i)).None? {
      var (s', again) := Trigger(c, s, s.latest.value, env(i));
      assert again ==> Step(c, s', env, i + 1) == Step(c, s', env', i + 1);
    }
  }

  /**
   * Where a download may start. The generator panics exactly when the release was found and the delay range
   * is empty. Otherwise, for a release added inside the searched window, the start lies before
   * `block + max_delay` and strictly before the latest fork whenever that fork is ahead.
   */
  lemma StartBlockBounds(c: Config, latest: OperationsInfo, r: Reading)
    ensures StartBlock(c, latest, r).None?
            <==> r.releaseBlock.Some? && (c.maxDelay == 0 || latest.fork == r.block)
    ensures StartBlock(c, latest, r).Some? && r.releaseBlock.Some?
            && SaturatingSub(r.block, EffectiveDelay(c, latest.fork, r.block)) <= r.releaseBlock.value <= r.block ==>
              var start := StartBlock(c, latest, r).value;
              && r.releaseBlock.value <= start < r.block + c.maxDelay
              && (latest.fork > r.block ==> start < latest.fork)
    ensures r.releaseBlock.None? ==> StartBlock(c, latest, r) == Some(r.block)
  {
    var delay := EffectiveDelay(c, latest.fork, r.block);
    if delay != 0 {
      assert r.draw % delay < delay;
    }
  }
}
