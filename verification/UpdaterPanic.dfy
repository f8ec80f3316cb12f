/**
 * What a panic of the random generator does to the updater. It unwinds out of the poll and releases the lock with
 * `latest` already replaced and the status still that of the release before, and until the process has gone,
 * callbacks and polls go on in that state. This module proves exactly when callbacks stay with their own release,
 * and when files keep the right content.
 */
module UpdaterPanic {
  import opened Numerals
  import opened Arithmetic
  import opened UpdaterModel
  import opened UpdaterSafety
  import opened UpdaterContent

  /** One event, whether or not there has been a panic before it. */
  function ApplyOn(c: Config, s: State, e: Event): State {
    var s' := Apply(c, s.(panicked := false), e);
    s'.(panicked := s.panicked || s'.panicked)
  }

  function RunOn(c: Config, s: State, events: seq<Event>): State {
    if events == [] then s else ApplyOn(c, RunOn(c, s, events[..|events| - 1]), events[|events| - 1])
  }

  // The answers of the operations client.

  /** A release block that is found lies in the interval searched: from the start of the delay up to the head. */
  ghost predicate InInterval(c: Config, fork: u64, r: Reading) {
    r.releaseBlock.Some? ==>
      SaturatingSub(r.block, EffectiveDelay(c, fork, r.block)) <= r.releaseBlock.value <= r.block
  }

  /** What an event reads is what the client may answer about the release that is then the latest one. */
  ghost predicate Heeds(c: Config, s: State, e: Event) {
    match e
    case Poll(_, _, _, block, offer, env) =>
      var latest := Received(c, s, block, offer).latest;
      latest.Some? ==> forall j :: InInterval(c, latest.value.fork, env(j))
    case Fetched(_, _, _, _, _, _, env) =>
      s.latest.Some? ==> forall j :: InInterval(c, s.latest.value.fork, env(j))
    case Manual(_, _, _) => true
  }

  ghost predicate Heeding(c: Config, s: State, events: seq<Event>) {
    events != [] ==>
      && Heeding(c, s, events[..|events| - 1])
      && Heeds(c, RunOn(c, s, events[..|events| - 1]), events[|events| - 1])
  }

  /** A release that the updater would have to download. */
  ghost predicate Missing(c: Config, files: map<string, H256>, r: ReleaseInfo) {
    c.enableDownloading && Eligible(c, r) && FileName(r.version) !in files
  }

  /** Two different releases on offer would have to be downloaded. */
  ghost predicate Confusable(c: Config, offers: iset<OperationsInfo>, files: map<string, H256>) {
    exists a, b :: a in offers && b in offers && a.track != b.track
                   && Missing(c, files, a.track) && Missing(c, files, b.track)
  }

  // Downloads are only ever for releases that are offered and missing, whatever panics.

  ghost predicate Sought(c: Config, offers: iset<OperationsInfo>, files: map<string, H256>, s: State) {
    && (s.latest.Some? ==> s.latest.value in offers)
    && (s.status.Waiting? || s.status.Fetching? || s.status.FetchBackoff? ==>
          Offered(offers, s.status.release) && Missing(c, files, s.status.release))
    && (forall cb :: cb in s.inFlight ==> cb.latest in offers && Missing(c, files, cb.latest.track))
    && (forall name :: name in files ==> name in s.files)
  }

  lemma {:induction false} StepSought(c: Config, offers: iset<OperationsInfo>, files: map<string, H256>,
                                      s: State, env: Env, i: nat)
    requires Sought(c, offers, files, s)
    ensures Sought(c, offers, files, Step(c, s, env, i))
    decreases Rank(s)
  {
    if s.latest.Some? {
      if Handle(c, s, s.latest.value, env(i)).Some? {
        HandleSought(c, offers, files, s, env(i));
      } else {
        hide Handle;
        TriggerSought(c, offers, files, s, env(i));
        var (s', again) := Trigger(c, s, s.latest.value, env(i));
        if again {
          StepSought(c, offers, files, s', env, i + 1);
        }
      }
    }
  }

  lemma HandleSought(c: Config, offers: iset<OperationsInfo>, files: map<string, H256>, s: State, r: Reading)
    requires Sought(c, offers, files, s) && s.latest.Some? && Handle(c, s, s.latest.value, r).Some?
    ensures Sought(c, offers, files, Handle(c, s, s.latest.value, r).value)
  {
    hide Missing, Offered;
  }

  lemma TriggerSought(c: Config, offers: iset<OperationsInfo>, files: map<string, H256>, s: State, r: Reading)
    requires Sought(c, offers, files, s) && s.latest.Some?
    ensures Sought(c, offers, files, Trigger(c, s, s.latest.value, r).0)
  {
    assert Offered(offers, s.latest.value.track);
  }

  lemma PollSought(c: Config, offers: iset<OperationsInfo>, files: map<string, H256>, s: State, e: Event)
    requires Sought(c, offers, files, s) && e.Poll? && (e.offer.Some? ==> e.offer.value in offers)
    ensures Sought(c, offers, files, PollStep(c, s, e.secure, e.block, e.offer, e.env))
  {
    hide Missing, Offered, Step;
    StepSought(c, offers, files, Received(c, s, e.block, e.offer), e.env, 0);
  }

  lemma FetchedSought(c: Config, offers: iset<OperationsInfo>, files: map<string, H256>, s: State, e: Event)
    requires Sought(c, offers, files, s) && e.Fetched?
    ensures Sought(c, offers, files, FetchedStep(c, s, e.callback, e.ok, e.copy, e.now, e.env))
  {
    hide Missing, Offered, Step;
    if Accepts(s, e.callback) {
      StepSought(c, offers, files, Delivered(s, e.callback), e.env, 0);
    }
  }

  lemma SoughtIgnoresPanics(c: Config, offers: iset<OperationsInfo>, files: map<string, H256>, s: State, panicked: bool)
    ensures Sought(c, offers, files, s) <==> Sought(c, offers, files, s.(panicked := panicked))
  {
    hide Missing, Offered;
  }

  lemma UpgradeSought(c: Config, offers: iset<OperationsInfo>, files: map<string, H256>, s: State, write: PointerWrite)
    requires Sought(c, offers, files, s)
    ensures Sought(c, offers, files, ExecuteUpgrade(s, write, true))
  {
    hide Missing, Offered;
  }

  lemma ApplySought(c: Config, offers: iset<OperationsInfo>, files: map<string, H256>, s: State, e: Event)
    requires Sought(c, offers, files, s)
    requires e.Poll? && e.offer.Some? ==> e.offer.value in offers
    ensures Sought(c, offers, files, ApplyOn(c, s, e))
  {
    hide Sought, PollStep, FetchedStep, ExecuteUpgrade;
    var t := s.(panicked := false);
    SoughtIgnoresPanics(c, offers, files, s, false);
    match e {
      case Poll(_, _, _, _, _, _) => PollSought(c, offers, files, t, e);
      case Fetched(_, _, _, _, _, _, _) => FetchedSought(c, offers, files, t, e);
      case Manual(_, _, write) => UpgradeSought(c, offers, files, t, write);
    }
    SoughtIgnoresPanics(c, offers, files, Apply(c, t, e), s.panicked || Apply(c, t, e).panicked);
  }

  lemma {:induction false} RunSought(c: Config, offers: iset<OperationsInfo>, files: map<string, H256>,
                                     pointer: Option<string>, events: seq<Event>)
    requires OffersFrom(offers, events)
    ensures Sought(c, offers, files, RunOn(c, Init(files, pointer), events))
  {
    hide ApplyOn, Missing, Offered;
    if events != [] {
      RunSought(c, offers, files, pointer, events[..|events| - 1]);
      ApplySought(c, offers, files, RunOn(c, Init(files, pointer), events[..|events| - 1]), events[|events| - 1]);
    }
  }

  // The run in which a callback is taken for another release.

  function Gate(c: Config, fork: u64): (block: u64)
    ensures block <= fork && block % (if c.frequency == 0 then 1 else c.frequency) == 0
  {
    var f := if c.frequency == 0 then 1 else c.frequency;
    GateIsMultiple(fork, f);
    fork - fork % f
  }

  lemma GateIsMultiple(fork: nat, f: nat)
    requires f > 0
    ensures fork % f <= fork && (fork - fork % f) % f == 0
  {
    QuotientIs(fork / f, f, 0);
    assert fork - fork % f == fork / f * f;
  }

  /**
   * A poll at the last block before the fork at which one is due, whose step finds the head at the fork, where the
   * release has just been added: no room is left for a delay.
   */
  function AnnounceAtFork(c: Config, o: OperationsInfo): Event {
    Poll(0.0, 0.0, true, Gate(c, o.fork), Some(o), Quiet(o.fork, 0.0, Some(o.fork)))
  }

  lemma OfferStartsDownload(c: Config, files: map<string, H256>, s: State, o: OperationsInfo)
    requires Missing(c, files, o.track) && s.files == files && !s.panicked
    requires !s.status.Disabled? && Holds(s.status) != Some(o.track)
    ensures var s' := ApplyOn(c, s, Announce(o, 0.0)); var binary := o.track.binary.value;
            && s'.status == Fetching(o.track, binary, 1) && s'.files == files && !s'.panicked
            && s'.inFlight == s.inFlight + {Callback(o, binary)}
  {
    AnnounceStartsDownload(c, s, o, 0.0);
    hide Apply;
    assert s.(panicked := false) == s;
  }

  lemma AnnounceAtForkPanics(c: Config, files: map<string, H256>, s: State, o: OperationsInfo)
    requires Missing(c, files, o.track) && s.files == files && !s.panicked
    requires !s.status.Disabled? && Holds(s.status) != Some(o.track)
    ensures var s' := ApplyOn(c, s, AnnounceAtFork(c, o));
            && s'.panicked && s'.latest == Some(o) && s'.status == s.status
            && s'.inFlight == s.inFlight && s'.files == files
  {
    hide Gate;
    var s1 := Received(c, s, Gate(c, o.fork), Some(o));
    var env := Quiet(o.fork, 0.0, Some(o.fork));
    assert Trigger(c, s1, o, env(0)) == (s1.(panicked := true), false);
  }

  lemma OneMore(c: Config, s: State, events: seq<Event>, e: Event)
    ensures RunOn(c, s, events + [e]) == ApplyOn(c, RunOn(c, s, events), e)
    ensures Heeding(c, s, events + [e]) <==> Heeding(c, s, events) && Heeds(c, RunOn(c, s, events), e)
  {
    hide ApplyOn, Heeds;
    assert (events + [e])[..|events + [e]| - 1] == events;
  }

  lemma Heeded(c: Config, s: State, o: OperationsInfo)
    ensures Heeds(c, s, Announce(o, 0.0)) && Heeds(c, s, AnnounceAtFork(c, o))
  {
    hide Gate;
  }

  function Confusion(c: Config, a: OperationsInfo, b: OperationsInfo): seq<Event> {
    [Announce(a, 0.0)] + [Announce(b, 0.0)] + [AnnounceAtFork(c, a)]
  }

  /** Offers of `a`, `b` and `a` again, the last one with a panic: the callback for `a` finds `b` being fetched. */
  lemma PanicConfuses(c: Config, files: map<string, H256>, pointer: Option<string>,
                      a: OperationsInfo, b: OperationsInfo)
    requires a.track != b.track && Missing(c, files, a.track) && Missing(c, files, b.track)
    ensures var s := RunOn(c, Init(files, pointer), Confusion(c, a, b));
            var cb := Callback(a, a.track.binary.value);
            && s.panicked && cb in s.inFlight && Accepts(s, cb)
            && s.status == Fetching(b.track, b.track.binary.value, 1) && s.files == files
    ensures Heeding(c, Init(files, pointer), Confusion(c, a, b))
  {
    var s0 := Init(files, pointer);
    OneMore(c, s0, [], Announce(a, 0.0));
    OneMore(c, s0, [Announce(a, 0.0)], Announce(b, 0.0));
    OneMore(c, s0, [Announce(a, 0.0)] + [Announce(b, 0.0)], AnnounceAtFork(c, a));
    assert [] + [Announce(a, 0.0)] == [Announce(a, 0.0)];
    hide ApplyOn, Heeds, Announce, AnnounceAtFork;
    OfferStartsDownload(c, files, s0, a);
    var s1 := ApplyOn(c, s0, Announce(a, 0.0));
    OfferStartsDownload(c, files, s1, b);
    var s2 := ApplyOn(c, s1, Announce(b, 0.0));
    AnnounceAtForkPanics(c, files, s2, a);
    Heeded(c, s0, a);
    Heeded(c, s1, b);
    Heeded(c, s2, a);
  }

  lemma ConfusionFrom(c: Config, offers: iset<OperationsInfo>, a: OperationsInfo, b: OperationsInfo)
    requires a in offers && b in offers
    ensures OffersFrom(offers, Confusion(c, a, b))
  {
  }

  /** Every callback that passes both checks of `on_fetch`, at any time, finds its own release being fetched. */
  ghost predicate AlwaysItsOwn(c: Config, offers: iset<OperationsInfo>, files: map<string, H256>,
                               pointer: Option<string>) {
    forall events, cb | OffersFrom(offers, events) && Heeding(c, Init(files, pointer), events) ::
      var s := RunOn(c, Init(files, pointer), events);
      cb in s.inFlight && Accepts(s, cb) ==> s.status.release == cb.latest.track
  }

  /** Without two such releases, callbacks stay with their own whatever the client answers. */
  lemma ItsOwn(c: Config, offers: iset<OperationsInfo>, files: map<string, H256>, pointer: Option<string>,
               events: seq<Event>, cb: Callback)
    requires !Confusable(c, offers, files) && OffersFrom(offers, events)
    requires var s := RunOn(c, Init(files, pointer), events); cb in s.inFlight && Accepts(s, cb)
    ensures RunOn(c, Init(files, pointer), events).status.release == cb.latest.track
  {
    hide RunOn, Missing;
    RunSought(c, offers, files, pointer, events);
    var o :| o in offers && o.track == RunOn(c, Init(files, pointer), events).status.release;
  }

  /**
   * Over every run that draws its offers from a given set, goes on after panics, and gets from the operations client
   * what that may answer: callbacks stay with their own release if and only if no two different releases on offer
   * would have to be downloaded.
   */
  lemma ItsOwnIffNotConfusable(c: Config, offers: iset<OperationsInfo>, files: map<string, H256>,
                               pointer: Option<string>)
    ensures AlwaysItsOwn(c, offers, files, pointer) <==> !Confusable(c, offers, files)
  {
    hide RunOn, Missing, Heeding, Confusion;
    if Confusable(c, offers, files) {
      var a, b :| a in offers && b in offers && a.track != b.track
                  && Missing(c, files, a.track) && Missing(c, files, b.track);
      PanicConfuses(c, files, pointer, a, b);
      ConfusionFrom(c, offers, a, b);
      MissingHasBinary(c, files, a.track);
      var cb := Callback(a, a.track.binary.value);
      assert cb in RunOn(c, Init(files, pointer), Confusion(c, a, b)).inFlight;
    } else {
      forall events, cb | OffersFrom(offers, events) && Heeding(c, Init(files, pointer), events)
        ensures var s := RunOn(c, Init(files, pointer), events);
                cb in s.inFlight && Accepts(s, cb) ==> s.status.release == cb.latest.track
      {
        var s := RunOn(c, Init(files, pointer), events);
        if cb in s.inFlight && Accepts(s, cb) {
          ItsOwn(c, offers, files, pointer, events, cb);
        }
      }
    }
  }

  lemma MissingHasBinary(c: Config, files: map<string, H256>, r: ReleaseInfo)
    requires Missing(c, files, r)
    ensures r.binary.Some?
  {
  }

  // What a panic does not harm.

  lemma ApplyOnKeeps(c: Config, s: State, e: Event)
    requires Settled(c, s)
    ensures Settled(c, ApplyOn(c, s, e))
  {
    hide Step, StatusOk, CallbackOk, FilesOk, InstallsOk;
    var t := s.(panicked := false);
    SettledIgnoresPanics(c, s, false);
    if e.Poll? {
      ReceivedKeeps(c, t, e.block, e.offer);
      StepKeeps(c, Received(c, t, e.block, e.offer), e.env, 0);
    } else if e.Fetched? && Accepts(t, e.callback) {
      FetchedKeepsSettled(c, t, e);
    } else if e.Manual? {
      UpgradeKeeps(c, t, e.write);
    }
    SettledIgnoresPanics(c, Apply(c, t, e), s.panicked || Apply(c, t, e).panicked);
  }

  lemma SettledIgnoresPanics(c: Config, s: State, panicked: bool)
    ensures Settled(c, s) <==> Settled(c, s.(panicked := panicked))
  {
  }

  lemma ReceivedKeeps(c: Config, s: State, block: u64, offer: Option<OperationsInfo>)
    requires Settled(c, s)
    ensures Settled(c, Received(c, s, block, offer)) && Received(c, s, block, offer).panicked == s.panicked
  {
  }

  lemma UpgradeKeeps(c: Config, s: State, write: PointerWrite)
    requires Settled(c, s)
    ensures Settled(c, ExecuteUpgrade(s, write, true))
  {
  }

  lemma FetchedKeepsSettled(c: Config, s: State, e: Event)
    requires Settled(c, s) && !s.panicked && e.Fetched? && Accepts(s, e.callback)
    ensures Settled(c, FetchedStep(c, s, e.callback, e.ok, e.copy, e.now, e.env))
  {
    hide Step;
    StepKeeps(c, Delivered(s, e.callback), e.env, 0);
  }

  /** Eligibility, files of what is ready or installed, and the filter hold over every run, also after panics. */
  lemma {:induction false} RunOnKeeps(c: Config, files: map<string, H256>, pointer: Option<string>, events: seq<Event>)
    ensures Settled(c, RunOn(c, Init(files, pointer), events))
  {
    hide ApplyOn;
    if events != [] {
      RunOnKeeps(c, files, pointer, events[..|events| - 1]);
      ApplyOnKeeps(c, RunOn(c, Init(files, pointer), events[..|events| - 1]), events[|events| - 1]);
    }
  }

  // What it does to the content of files.

  /** Any two releases on offer that would have to be downloaded share their checksum. */
  ghost predicate ShareChecksum(c: Config, offers: iset<OperationsInfo>, files: map<string, H256>) {
    forall a, b | a in offers && b in offers && Missing(c, files, a.track) && Missing(c, files, b.track) ::
      a.track.binary == b.track.binary
  }

  lemma FetchedCleanOn(c: Config, offers: iset<OperationsInfo>, files: map<string, H256>, s: State, e: Event)
    requires Settled(c, s) && Clean(c, offers, s) && Sought(c, offers, files, s) && ShareChecksum(c, offers, files)
    requires e.Fetched? && e.callback in s.inFlight && Accepts(s, e.callback)
    ensures Clean(c, offers, FetchedStep(c, s, e.callback, e.ok, e.copy, e.now, e.env))
  {
    hide Step, Missing, Consistent;
    assert CallbackOk(c, e.callback);
    var o :| o in offers && o.track == s.status.release;
    assert o.track.binary == e.callback.latest.track.binary;
    DownloadKeepsClean(c, offers, s, e.callback);
    StepKeepsClean(c, offers, Delivered(s, e.callback), e.env, 0);
  }

  lemma PollCleanOn(c: Config, offers: iset<OperationsInfo>, s: State, e: Event)
    requires Clean(c, offers, s) && e.Poll? && (e.offer.Some? ==> e.offer.value in offers)
    ensures Clean(c, offers, PollStep(c, s, e.secure, e.block, e.offer, e.env))
  {
    hide Step, Consistent;
    StepKeepsClean(c, offers, Received(c, s, e.block, e.offer), e.env, 0);
  }

  lemma UpgradeKeepsClean(c: Config, offers: iset<OperationsInfo>, s: State, write: PointerWrite)
    requires Clean(c, offers, s)
    ensures Clean(c, offers, ExecuteUpgrade(s, write, true))
  {
    hide Consistent;
  }

  lemma CleanIgnoresPanics(c: Config, offers: iset<OperationsInfo>, s: State, panicked: bool)
    ensures Clean(c, offers, s) <==> Clean(c, offers, s.(panicked := panicked))
  {
    hide Consistent;
  }

  lemma ApplyCleanOn(c: Config, offers: iset<OperationsInfo>, files: map<string, H256>, s: State, e: Event)
    requires Settled(c, s) && Clean(c, offers, s) && Sought(c, offers, files, s) && ShareChecksum(c, offers, files)
    requires e.Poll? && e.offer.Some? ==> e.offer.value in offers
    ensures Clean(c, offers, ApplyOn(c, s, e))
  {
    hide Clean, Settled, Sought, ShareChecksum, PollStep, FetchedStep, ExecuteUpgrade;
    var t := s.(panicked := false);
    CleanIgnoresPanics(c, offers, s, false);
    SettledIgnoresPanics(c, s, false);
    SoughtIgnoresPanics(c, offers, files, s, false);
    match e {
      case Poll(_, _, _, _, _, _) => PollCleanOn(c, offers, t, e);
      case Fetched(_, _, cb, ok, copy, now, env) =>
        if cb in t.inFlight && Accepts(t, cb) {
          FetchedCleanOn(c, offers, files, t, e);
        } else if cb in t.inFlight {
          RefusedChangesNothing(c, t, e);
        }
      case Manual(_, _, write) => UpgradeKeepsClean(c, offers, t, write);
    }
    CleanIgnoresPanics(c, offers, Apply(c, t, e), s.panicked || Apply(c, t, e).panicked);
  }

  lemma RefusedChangesNothing(c: Config, s: State, e: Event)
    requires e.Fetched? && !Accepts(s, e.callback)
    ensures FetchedStep(c, s, e.callback, e.ok, e.copy, e.now, e.env) == s
  {
  }

  lemma {:induction false} RunCleanOn(c: Config, offers: iset<OperationsInfo>, files: map<string, H256>,
                                      pointer: Option<string>, events: seq<Event>)
    requires Consistent(c, offers, files) && ShareChecksum(c, offers, files) && OffersFrom(offers, events)
    ensures Clean(c, offers, RunOn(c, Init(files, pointer), events))
    ensures ContentOk(RunOn(c, Init(files, pointer), events))
  {
    hide ApplyOn, Settled, Sought, Consistent, ShareChecksum, ContentOk;
    if events != [] {
      var before := events[..|events| - 1];
      RunCleanOn(c, offers, files, pointer, before);
      RunOnKeeps(c, files, pointer, before);
      RunSought(c, offers, files, pointer, before);
      ApplyCleanOn(c, offers, files, RunOn(c, Init(files, pointer), before), events[|events| - 1]);
    }
    RunOnKeeps(c, files, pointer, events);
    CleanIsRight(c, offers, RunOn(c, Init(files, pointer), events));
  }

  /** Without a panic it makes no difference that runs would go on after one; with nothing found, nothing is asked. */
  lemma {:induction false} SameWithoutPanic(c: Config, s: State, events: seq<Event>)
    requires !Run(c, s, events).panicked
    ensures RunOn(c, s, events) == Run(c, s, events)
    ensures NothingFound(events) ==> Heeding(c, s, events)
  {
    if events != [] {
      var before, e := events[..|events| - 1], events[|events| - 1];
      assert !Run(c, s, before).panicked;
      SameWithoutPanic(c, s, before);
      hide Apply;
      assert Run(c, s, before).(panicked := false) == Run(c, s, before);
      if NothingFound(events) {
        assert NothingFound(before);
        NothingFoundHeeds(c, RunOn(c, s, before), e);
      }
    }
  }

  lemma NothingFoundHeeds(c: Config, s: State, e: Event)
    requires !e.Manual? ==> forall j :: e.env(j).releaseBlock == None
    ensures Heeds(c, s, e)
  {
  }

  /** The callback for `a`, whose step finds the head still at the fork. */
  function FinishAtFork(a: OperationsInfo): Event
    requires a.track.binary.Some?
  {
    Fetched(0.0, 0.0, Callback(a, a.track.binary.value), true, Copied, 0.0, Quiet(a.fork, 0.0, Some(a.fork)))
  }

  /** After the confusion the binary of `a` is stored under the name of `b`, and `b` counts as ready. */
  lemma ConfusionSpoils(c: Config, files: map<string, H256>, pointer: Option<string>,
                        a: OperationsInfo, b: OperationsInfo)
    requires a.track.binary != b.track.binary && FileName(a.track.version) != FileName(b.track.version)
    requires Missing(c, files, a.track) && Missing(c, files, b.track)
    ensures var events := Confusion(c, a, b) + [FinishAtFork(a)];
            var s := RunOn(c, Init(files, pointer), events);
            && Heeding(c, Init(files, pointer), events)
            && s.status == Ready(b.track) && s.files == files[FileName(b.track.version) := a.track.binary.value]
  {
    var s0 := Init(files, pointer);
    PanicConfuses(c, files, pointer, a, b);
    OneMore(c, s0, Confusion(c, a, b), FinishAtFork(a));
    var s := RunOn(c, s0, Confusion(c, a, b));
    hide RunOn, Confusion;
    assert Heeds(c, s, FinishAtFork(a));
    FinishStoresForOther(c, s, a, b);
  }

  lemma FinishStoresForOther(c: Config, s: State, a: OperationsInfo, b: OperationsInfo)
    requires c.enableDownloading && Eligible(c, a.track) && Eligible(c, b.track)
    requires FileName(a.track.version) != FileName(b.track.version)
    requires FileName(a.track.version) !in s.files && FileName(b.track.version) !in s.files
    requires var cb := Callback(a, a.track.binary.value); cb in s.inFlight && Accepts(s, cb)
    requires s.status.release == b.track
    ensures var s' := ApplyOn(c, s, FinishAtFork(a));
            s'.status == Ready(b.track) && s'.files == s.files[FileName(b.track.version) := a.track.binary.value]
  {
    var t, e := s.(panicked := false), FinishAtFork(a);
    var d := Delivered(t, e.callback);
    assert Trigger(c, d, a, e.env(0)) == (d.(panicked := true), false);
    assert Apply(c, t, e) == Step(c, d, e.env, 0) == d.(panicked := true);
  }

  lemma SpoiledRun(c: Config, offers: iset<OperationsInfo>, files: map<string, H256>, pointer: Option<string>)
    returns (events: seq<Event>)
    requires Consistent(c, offers, files) && !ShareChecksum(c, offers, files)
    ensures OffersFrom(offers, events) && Heeding(c, Init(files, pointer), events)
    ensures !ContentOk(RunOn(c, Init(files, pointer), events))
  {
    hide RunOn, Heeding, FilesMatch, Confusion;
    var a, b :| a in offers && b in offers && Missing(c, files, a.track) && Missing(c, files, b.track)
                && a.track.binary != b.track.binary;
    ConfusionSpoils(c, files, pointer, a, b);
    ConfusionFrom(c, offers, a, b);
    events := Confusion(c, a, b) + [FinishAtFork(a)];
  }

  /**
   * Over every such run, also after panics, what is ready or installed has the checksum of its release if and only
   * if directory and offers are consistent, and any two releases that would have to be downloaded share a checksum.
   */
  lemma ContentAfterPanicsIff(c: Config, offers: iset<OperationsInfo>, files: map<string, H256>,
                              pointer: Option<string>)
    ensures (forall events: seq<Event> :: OffersFrom(offers, events) && Heeding(c, Init(files, pointer), events) ==>
               ContentOk(RunOn(c, Init(files, pointer), events)))
            <==> Consistent(c, offers, files) && ShareChecksum(c, offers, files)
  {
    hide RunOn, Run, Heeding, ContentOk, Consistent, ShareChecksum;
    if !Consistent(c, offers, files) {
      var events := InconsistentRun(c, offers, files, pointer);
      SameWithoutPanic(c, Init(files, pointer), events);
      assert !ContentOk(RunOn(c, Init(files, pointer), events));
    } else if !ShareChecksum(c, offers, files) {
      var events := SpoiledRun(c, offers, files, pointer);
      assert !ContentOk(RunOn(c, Init(files, pointer), events));
    } else {
      forall events: seq<Event> | OffersFrom(offers, events) && Heeding(c, Init(files, pointer), events)
        ensures ContentOk(RunOn(c, Init(files, pointer), events))
      {
        RunCleanOn(c, offers, files, pointer, events);
      }
    }
  }
}
