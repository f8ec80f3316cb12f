/**
 * Whether a release that is ready or installed is backed by a file with that release's checksum.
 *
 * The code does not promise it for every sequence of offers: file names leave the checksum out, so a release
 * published again with another checksum finds the file of its predecessor and takes it for its own. This
 * module proves exactly when the content is right.
 */
module UpdaterContent {
  import opened Numerals
  import opened UpdaterModel
  import opened UpdaterSafety

  ghost predicate ContentOk(s: State) {
    s.status.Ready? || s.status.Installed? ==>
      var name := FileName(s.status.release.version);
      name in s.files && s.status.release.binary == Some(s.files[name])
  }

  /** The files that are there carry the checksum of every eligible offer of that name. */
  ghost predicate FilesMatch(c: Config, offers: iset<OperationsInfo>, files: map<string, H256>) {
    forall o | o in offers && Eligible(c, o.track) ::
      FileName(o.track.version) in files ==> o.track.binary == Some(files[FileName(o.track.version)])
  }

  /** Eligible offers that share a file name share their checksum. */
  ghost predicate NamesAgree(c: Config, offers: iset<OperationsInfo>) {
    forall o, p | o in offers && p in offers && Eligible(c, o.track) && Eligible(c, p.track) ::
      FileName(o.track.version) == FileName(p.track.version) ==> o.track.binary == p.track.binary
  }

  ghost predicate Consistent(c: Config, offers: iset<OperationsInfo>, files: map<string, H256>) {
    FilesMatch(c, offers, files) && (c.enableDownloading ==> NamesAgree(c, offers))
  }

  ghost predicate Clean(c: Config, offers: iset<OperationsInfo>, s: State) {
    && (!s.status.Disabled? ==> Consistent(c, offers, s.files))
    && (Holds(s.status).Some? ==> Offered(offers, Holds(s.status).value))
    && (s.latest.Some? ==> s.latest.value in offers)
  }

  /** What is held, ready or installed has the right content in a clean and settled state. */
  lemma CleanIsRight(c: Config, offers: iset<OperationsInfo>, s: State)
    requires Clean(c, offers, s) && Settled(c, s)
    ensures ContentOk(s)
  {
    if s.status.Ready? || s.status.Installed? {
      var o :| o in offers && o.track == s.status.release;
    }
  }

  lemma {:induction false} StepHolds(c: Config, s: State, env: Env, i: nat)
    requires s.latest.Some?
    ensures var held := Holds(Step(c, s, env, i).status);
            held.None? || held == Holds(s.status) || held == Some(s.latest.value.track)
    decreases Rank(s)
  {
    if Handle(c, s, s.latest.value, env(i)).None? {
      var (s', again) := Trigger(c, s, s.latest.value, env(i));
      if again {
        StepHolds(c, s', env, i + 1);
      }
    }
  }

  lemma StepKeepsClean(c: Config, offers: iset<OperationsInfo>, s: State, env: Env, i: nat)
    requires Clean(c, offers, s)
    ensures Clean(c, offers, Step(c, s, env, i))
  {
    if s.latest.Some? && !s.status.Disabled? {
      StepHolds(c, s, env, i);
      StepKeepsFiles(c, s, env, i);
    }
  }

  /** A download with the checksum of the release being fetched keeps the directory clean, whoever asked for it. */
  lemma DownloadKeepsClean(c: Config, offers: iset<OperationsInfo>, s: State, cb: Callback)
    requires Settled(c, s) && Clean(c, offers, s) && s.status.Fetching? && s.status.release.binary == Some(cb.binary)
    ensures Clean(c, offers, Delivered(s, cb))
  {
    var o :| o in offers && o.track == s.status.release;
    var files := Delivered(s, cb).files;
    forall p | p in offers && Eligible(c, p.track) && FileName(p.track.version) in files
      ensures p.track.binary == Some(files[FileName(p.track.version)])
    {
      assert FileName(p.track.version) == FileName(o.track.version) ==> p.track.binary == o.track.binary;
    }
  }

  lemma FetchedKeepsClean(c: Config, offers: iset<OperationsInfo>, s: State, e: Event)
    requires Inv(c, s) && Clean(c, offers, s) && !s.panicked
    requires e.Fetched? && e.callback in s.inFlight && Accepts(s, e.callback)
    ensures Clean(c, offers, Apply(c, s, e))
  {
    assert CallbackOk(c, e.callback) && s.status.release == e.callback.latest.track;
    DownloadKeepsClean(c, offers, s, e.callback);
    StepKeepsClean(c, offers, Delivered(s, e.callback), e.env, 0);
  }

  lemma ApplyKeepsClean(c: Config, offers: iset<OperationsInfo>, s: State, e: Event)
    requires Inv(c, s) && Clean(c, offers, s)
    requires e.Poll? && e.offer.Some? ==> e.offer.value in offers
    ensures Clean(c, offers, Apply(c, s, e))
  {
    if e.Poll? {
      StepKeepsClean(c, offers, Received(c, s, e.block, e.offer), e.env, 0);
    } else if e.Fetched? && !s.panicked && e.callback in s.inFlight && Accepts(s, e.callback) {
      FetchedKeepsClean(c, offers, s, e);
    }
  }

  lemma {:induction false} RunKeepsClean(c: Config, offers: iset<OperationsInfo>, files: map<string, H256>,
                                         pointer: Option<string>, events: seq<Event>)
    requires Consistent(c, offers, files) && OffersFrom(offers, events)
    ensures Clean(c, offers, Run(c, Init(files, pointer), events))
    ensures ContentOk(Run(c, Init(files, pointer), events))
  {
    if events != [] {
      var before := events[..|events| - 1];
      assert OffersFrom(offers, before);
      RunKeepsClean(c, offers, files, pointer, before);
      RunKeeps(c, files, pointer, before);
      ApplyKeepsClean(c, offers, Run(c, Init(files, pointer), before), events[|events| - 1]);
    }
    RunKeeps(c, files, pointer, events);
    CleanIsRight(c, offers, Run(c, Init(files, pointer), events));
  }

  lemma RunSingle(c: Config, s: State, e: Event)
    ensures Run(c, s, [e]) == Apply(c, s, e)
  {
    assert [e][..0] == [];
  }

  lemma RunMore(c: Config, s: State, es: seq<Event>, e: Event)
    ensures Run(c, s, es + [e]) == Apply(c, Run(c, s, es), e)
  {
    assert (es + [e])[..|es + [e]| - 1] == es;
  }

  /** A release whose file name is taken, but which is not held yet, is taken for downloaded. */
  lemma AnnounceFindsFile(c: Config, s: State, o: OperationsInfo)
    requires Eligible(c, o.track) && FileName(o.track.version) in s.files && !s.panicked
    requires !s.status.Disabled? && Holds(s.status) != Some(o.track)
    ensures var s' := Apply(c, s, Announce(o, 0.0));
            && (s'.status == Ready(o.track) || s'.status == Installed(o.track))
            && s'.files == s.files && !s'.panicked
  {
    var s1, env := Received(c, s, 0, Some(o)), Quiet(0, 0.0, None);
    var s2 := s1.(status := Ready(o.track));
    assert Trigger(c, s1, o, env(0)) == (s2, true);
    assert Apply(c, s, Announce(o, 0.0)) == Step(c, s1, env, 0) == Step(c, s2, env, 1);
  }

  /** A release that is neither held nor on disk is downloaded as soon as it is announced. */
  lemma AnnounceStartsDownload(c: Config, s: State, o: OperationsInfo, at: real)
    requires Eligible(c, o.track) && c.enableDownloading && FileName(o.track.version) !in s.files && !s.panicked
    requires !s.status.Disabled? && Holds(s.status) != Some(o.track)
    ensures Apply(c, s, Announce(o, at)) ==
            StartFetch(Received(c, s, 0, Some(o)).(status := Waiting(o.track, o.track.binary.value, 0)),
                       o, o.track.binary.value, 1, at)
  {
    var s1, env := Received(c, s, 0, Some(o)), Quiet(0, at, None);
    var s2 := s1.(status := Waiting(o.track, o.track.binary.value, 0));
    assert Trigger(c, s1, o, env(0)) == (s2, true);
    assert Apply(c, s, Announce(o, at)) == Step(c, s1, env, 0) == Step(c, s2, env, 1);
  }

  /** From the start, announcing an eligible release that is not on disk and delivering it stores its binary. */
  lemma AnnounceAndDeliver(c: Config, files: map<string, H256>, pointer: Option<string>, o: OperationsInfo)
    requires Eligible(c, o.track) && c.enableDownloading && FileName(o.track.version) !in files
    ensures var s := Run(c, Init(files, pointer), [Announce(o, 0.0), Finish(o, true, 0.0)]);
            && !s.panicked
            && (s.status == Ready(o.track) || s.status == Installed(o.track))
            && s.files == files[FileName(o.track.version) := o.track.binary.value]
  {
    var s0, announce, finish := Init(files, pointer), Announce(o, 0.0), Finish(o, true, 0.0);
    AnnounceStartsDownload(c, s0, o, 0.0);
    var s1 := Apply(c, s0, announce);
    RunSingle(c, s0, announce);
    RunMore(c, s0, [announce], finish);
    assert [announce] + [finish] == [announce, finish];
    var s2 := Delivered(s1, finish.callback);
    assert Apply(c, s1, finish) == Step(c, s2, finish.env, 0);
    StepKeepsFiles(c, s2, finish.env, 0);
  }

  /** No release block is ever found, so nothing is drawn. */
  ghost predicate NothingFound(events: seq<Event>) {
    forall k :: 0 <= k < |events| && !events[k].Manual? ==> forall j :: events[k].env(j).releaseBlock == None
  }

  lemma WrongFileAtStart(c: Config, files: map<string, H256>, pointer: Option<string>, o: OperationsInfo)
    returns (events: seq<Event>)
    requires Eligible(c, o.track) && FileName(o.track.version) in files
    requires o.track.binary != Some(files[FileName(o.track.version)])
    ensures OffersFrom(iset{o}, events) && NothingFound(events)
    ensures var s := Run(c, Init(files, pointer), events); !ContentOk(s) && !s.panicked
  {
    events := [Announce(o, 0.0)];
    RunSingle(c, Init(files, pointer), Announce(o, 0.0));
    AnnounceFindsFile(c, Init(files, pointer), o);
  }

  lemma RepublishedRelease(c: Config, files: map<string, H256>, pointer: Option<string>,
                           o: OperationsInfo, p: OperationsInfo)
    returns (events: seq<Event>)
    requires Eligible(c, o.track) && Eligible(c, p.track) && c.enableDownloading
    requires FileName(o.track.version) == FileName(p.track.version) && FileName(o.track.version) !in files
    requires o.track.binary != p.track.binary
    ensures OffersFrom(iset{o, p}, events) && NothingFound(events)
    ensures var s := Run(c, Init(files, pointer), events); !ContentOk(s) && !s.panicked
  {
    hide Apply, Run, FileName;
    var first := [Announce(o, 0.0), Finish(o, true, 0.0)];
    AnnounceAndDeliver(c, files, pointer, o);
    var s := Run(c, Init(files, pointer), first);
    events := first + [Announce(p, 0.0)];
    RunMore(c, Init(files, pointer), first, Announce(p, 0.0));
    AnnounceFindsFile(c, s, p);
  }

  /** An inconsistent set of offers has a run that ends with the wrong content. */
  lemma InconsistentRun(c: Config, offers: iset<OperationsInfo>, files: map<string, H256>, pointer: Option<string>)
    returns (events: seq<Event>)
    requires !Consistent(c, offers, files)
    ensures OffersFrom(offers, events) && NothingFound(events)
    ensures var s := Run(c, Init(files, pointer), events); !ContentOk(s) && !s.panicked
  {
    hide Run, ContentOk;
    if !FilesMatch(c, offers, files) {
      var o :| o in offers && Eligible(c, o.track) && FileName(o.track.version) in files
               && o.track.binary != Some(files[FileName(o.track.version)]);
      events := WrongFileAtStart(c, files, pointer, o);
    } else {
      var o, p :| o in offers && p in offers && Eligible(c, o.track) && Eligible(c, p.track)
                  && FileName(o.track.version) == FileName(p.track.version) && o.track.binary != p.track.binary;
      events := RepublishedRelease(c, files, pointer, o, p);
    }
  }

  /**
   * Over every run that draws its offers from a given set, what is ready or installed has the checksum of its
   * release if and only if the directory starts out right and offers that share a file name share a checksum.
   */
  lemma ContentIffConsistent(c: Config, offers: iset<OperationsInfo>, files: map<string, H256>,
                             pointer: Option<string>)
    ensures (forall events: seq<Event> ::
               OffersFrom(offers, events) ==> ContentOk(Run(c, Init(files, pointer), events)))
            <==> Consistent(c, offers, files)
  {
    if Consistent(c, offers, files) {
      forall events: seq<Event> | OffersFrom(offers, events)
        ensures ContentOk(Run(c, Init(files, pointer), events))
      {
        RunKeepsClean(c, offers, files, pointer, events);
      }
    } else {
      var events := InconsistentRun(c, offers, files, pointer);
    }
  }
}
