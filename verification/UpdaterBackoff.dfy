/** How fast failed downloads are tried again. */
module UpdaterBackoff {
  import opened Numerals
  import opened Arithmetic
  import opened UpdaterModel

  /** A later attempt either starts afresh or is the next one for the same release, after the backoff. */
  ghost predicate Succeeds(a: Attempt, b: Attempt) {
    || b.retries == 1
    || (&& b.release == a.release
        && b.binary == a.binary
        && b.retries == a.retries + 1
        && b.at >= a.at + BackoffSeconds(a.retries) as real)
  }

  ghost predicate Spaced(attempts: seq<Attempt>) {
    && (attempts != [] ==> attempts[0].retries == 1)
    && (forall k :: 0 < k < |attempts| ==> Succeeds(attempts[k - 1], attempts[k]))
  }

  /** The last attempt belongs to the download in progress or to the failure being waited out. */
  ghost predicate Linked(s: State) {
    s.status.Fetching? || s.status.FetchBackoff? ==>
      && s.attempts != []
      && var last := s.attempts[|s.attempts| - 1];
      && last.release == s.status.release
      && last.binary == s.status.binary
      && last.retries == s.status.retries
      && (s.status.FetchBackoff? ==> s.status.until >= last.at + BackoffSeconds(last.retries) as real)
  }

  ghost predicate Paced(s: State, now: real) {
    && Spaced(s.attempts)
    && Linked(s)
    && (forall k :: 0 <= k < |s.attempts| ==> s.attempts[k].at <= now)
  }

  ghost predicate WithinEnv(env: Env, began: real, ended: real) {
    forall j :: began <= env(j).now1 <= env(j).now2 <= ended
  }

  ghost predicate Within(e: Event) {
    && e.began <= e.ended
    && (e.Fetched? ==> e.began <= e.now <= e.ended)
    && (!e.Manual? ==> WithinEnv(e.env, e.began, e.ended))
  }

  /** The clock never runs backwards, within an event or from one event to the next. */
  ghost predicate MonotoneClock(events: seq<Event>) {
    && (forall k :: 0 <= k < |events| ==> Within(events[k]))
    && (forall k :: 0 < k < |events| ==> events[k - 1].ended <= events[k].began)
  }

  lemma StartFetchPaced(s: State, latest: OperationsInfo, binary: H256, retries: nat, at: real, began: real)
    requires Paced(s, began) && began <= at && Holds(s.status).Some?
    requires s.attempts == [] ==> retries == 1
    requires s.attempts != [] ==>
               Succeeds(s.attempts[|s.attempts| - 1], Attempt(Holds(s.status).value, binary, retries, at))
    ensures Paced(StartFetch(s, latest, binary, retries, at), at)
  {
    var next := StartFetch(s, latest, binary, retries, at).attempts;
    forall k | 0 < k < |next|
      ensures Succeeds(next[k - 1], next[k])
    {
      assert k < |s.attempts| ==> next[k - 1] == s.attempts[k - 1] && next[k] == s.attempts[k];
    }
  }

  lemma HandlePaced(c: Config, s: State, r: Reading, began: real, ended: real)
    requires Paced(s, began) && s.latest.Some? && began <= r.now1 <= r.now2 <= ended
    ensures var h := Handle(c, s, s.latest.value, r); h.Some? ==> Paced(h.value, ended)
  {
    hide BackoffSeconds, Spaced;
    if s.status.Waiting? {
      StartFetchPaced(s, s.latest.value, s.status.binary, 1, r.now2, began);
    } else if s.status.FetchBackoff? && r.now2 >= s.status.until {
      StartFetchPaced(s, s.latest.value, s.status.binary, s.status.retries + 1, r.now2, began);
    }
  }

  lemma TriggerPaced(c: Config, s: State, r: Reading, began: real)
    requires Paced(s, began) && s.latest.Some?
    ensures Paced(Trigger(c, s, s.latest.value, r).0, began)
  {
    hide Spaced;
  }

  lemma PacedLater(s: State, now: real, later: real)
    requires Paced(s, now) && now <= later
    ensures Paced(s, later)
  {
    hide Spaced, Linked;
  }

  lemma TriggerRanks(c: Config, s: State, r: Reading)
    requires s.latest.Some? && Handle(c, s, s.latest.value, r).None?
    ensures var (s', again) := Trigger(c, s, s.latest.value, r); again ==> Rank(s') < Rank(s)
  {
  }

  lemma {:induction false} StepPaced(c: Config, s: State, env: Env, i: nat, began: real, ended: real)
    requires Paced(s, began) && WithinEnv(env, began, ended)
    ensures Paced(Step(c, s, env, i), ended)
    decreases Rank(s)
  {
    assert began <= env(i).now1 <= env(i).now2 <= ended;
    hide Handle, Trigger, Paced, WithinEnv, Rank;
    if s.latest.None? {
      PacedLater(s, began, ended);
    } else {
      HandlePaced(c, s, env(i), began, ended);
      TriggerPaced(c, s, env(i), began);
      var (s', again) := Trigger(c, s, s.latest.value, env(i));
      if again && Handle(c, s, s.latest.value, env(i)).None? {
        TriggerRanks(c, s, env(i));
        StepPaced(c, s', env, i + 1, began, ended);
      } else {
        PacedLater(s', began, ended);
      }
    }
  }

  lemma FetchedPaced(c: Config, s: State, e: Event)
    requires Paced(s, e.began) && Within(e) && e.Fetched? && Accepts(s, e.callback)
    ensures Paced(FetchedStep(c, s, e.callback, e.ok, e.copy, e.now, e.env), e.ended)
  {
    hide Step, Spaced, BackoffSeconds;
    var s' := Delivered(s, e.callback);
    assert s'.attempts == s.attempts;
    StepPaced(c, s', e.env, 0, e.began, e.ended);
  }

  lemma ApplyPaced(c: Config, s: State, e: Event)
    requires Paced(s, e.began) && Within(e)
    ensures Paced(Apply(c, s, e), e.ended)
  {
    if e.Poll? {
      var s' := Received(c, s, e.block, e.offer);
      assert s'.attempts == s.attempts && s'.status == s.status;
      StepPaced(c, s', e.env, 0, e.began, e.ended);
    } else if e.Fetched? && Accepts(s, e.callback) {
      FetchedPaced(c, s, e);
    }
  }

  ghost function EndOf(events: seq<Event>, start: real): real {
    if events == [] then start else events[|events| - 1].ended
  }

  /**
   * In every run under a monotone clock, each download attempt is either the first one for its release or the
   * next one, numbered one higher and started only after the backoff of the one before.
   */
  lemma {:induction false} AttemptsSpaced(c: Config, files: map<string, H256>, pointer: Option<string>,
                                          events: seq<Event>, start: real)
    requires MonotoneClock(events) && (events != [] ==> start <= events[0].began)
    ensures Paced(Run(c, Init(files, pointer), events), EndOf(events, start))
    ensures Spaced(Run(c, Init(files, pointer), events).attempts)
  {
    if events != [] {
      var before, e := events[..|events| - 1], events[|events| - 1];
      AttemptsSpaced(c, files, pointer, before, start);
      assert before != [] ==> events[|events| - 2].ended <= e.began;
      ApplyPaced(c, Run(c, Init(files, pointer), before), e);
    }
  }

  // Runs in which only one release is ever offered.

  ghost predicate OnlyOffers(track: ReleaseInfo, events: seq<Event>) {
    OffersFrom((iset o: OperationsInfo | o.track == track), events)
  }

  ghost predicate Steady(track: ReleaseInfo, s: State) {
    && (s.latest.Some? ==> s.latest.value.track == track)
    && (Holds(s.status).Some? ==> Holds(s.status).value == track)
    && (s.status.Idle? || s.status.Waiting? ==> s.attempts == [])
    && (s.status.Fetching? || s.status.FetchBackoff? ==> s.status.retries == |s.attempts|)
    && (forall k :: 0 <= k < |s.attempts| ==> s.attempts[k].release == track && s.attempts[k].retries == k + 1)
  }

  lemma {:induction false} StepSteady(c: Config, track: ReleaseInfo, s: State, env: Env, i: nat)
    requires Steady(track, s) && env(i).now1 <= env(i).now2
    requires s.status.Idle? ==> env(i + 1).now1 <= env(i + 1).now2
    ensures Steady(track, Step(c, s, env, i))
    decreases Rank(s)
  {
    if s.latest.Some? && Handle(c, s, s.latest.value, env(i)).None? {
      assert s.status.Idle?;
      var (s', again) := Trigger(c, s, s.latest.value, env(i));
      if again {
        StepSteady(c, track, s', env, i + 1);
      }
    }
  }

  lemma ApplySteady(c: Config, track: ReleaseInfo, s: State, e: Event)
    requires Steady(track, s) && Within(e)
    requires e.Poll? && e.offer.Some? ==> e.offer.value.track == track
    ensures Steady(track, Apply(c, s, e))
  {
    if !e.Manual? {
      assert e.env(0).now1 <= e.env(0).now2 && e.env(1).now1 <= e.env(1).now2;
      if e.Poll? {
        StepSteady(c, track, Received(c, s, e.block, e.offer), e.env, 0);
      } else if Accepts(s, e.callback) {
        StepSteady(c, track, Delivered(s, e.callback), e.env, 0);
      }
    }
  }

  lemma {:induction false} RunSteady(c: Config, files: map<string, H256>, pointer: Option<string>,
                                     events: seq<Event>, track: ReleaseInfo)
    requires MonotoneClock(events) && OnlyOffers(track, events)
    ensures Steady(track, Run(c, Init(files, pointer), events))
  {
    if events != [] {
      RunSteady(c, files, pointer, events[..|events| - 1], track);
      ApplySteady(c, track, Run(c, Init(files, pointer), events[..|events| - 1]), events[|events| - 1]);
    }
  }

  /** Doubling each time, capped at a day. */
  ghost function CappedDoubling(n: nat): nat {
    if Pow2(n) < MAX_BACKOFF then Pow2(n) else MAX_BACKOFF
  }

  /** Seconds of backoff after the first `k` failures. */
  ghost function TotalBackoff(k: nat): nat {
    if k == 0 then 0 else TotalBackoff(k - 1) + CappedDoubling(k)
  }

  lemma {:induction false} Pow2Bound(n: nat)
    ensures n < 64 ==> Pow2(n) < TWO_64
    ensures n >= 64 ==> Pow2(n) % TWO_64 == 0 && Pow2(n) >= TWO_64
  {
    if n >= 64 {
      if n == 64 {
        Pow2OfWord();
      } else {
        Pow2Bound(n - 1);
        var q := Pow2(n - 1) / TWO_64;
        assert Pow2(n) == 2 * Pow2(n - 1) == (2 * q) * TWO_64;
      }
    } else {
      Pow2Monotone(n, 63);
      Pow2OfWord();
    }
  }

  lemma {:induction false} Pow2Monotone(m: nat, n: nat)
    requires m <= n
    ensures Pow2(m) <= Pow2(n)
    decreases n - m
  {
    if m < n {
      Pow2Monotone(m + 1, n);
    }
  }

  /** The capped doubling is what the code computes exactly up to retry 63; after that its power wraps to zero. */
  lemma BackoffDoublesIff(n: nat)
    ensures BackoffSeconds(n) == CappedDoubling(n) <==> n < 64
  {
    Pow2Bound(n);
  }

  lemma {:induction false} SpacingAddsUp(attempts: seq<Attempt>, k: nat)
    requires Spaced(attempts) && k < |attempts| && k < 64
    requires forall j :: 0 <= j < |attempts| ==> attempts[j].retries == j + 1
    ensures attempts[k].at >= attempts[0].at + TotalBackoff(k) as real
  {
    hide CappedDoubling, BackoffSeconds;
    if k > 0 {
      SpacingAddsUp(attempts, k - 1);
      assert Succeeds(attempts[k - 1], attempts[k]);
      BackoffDoublesIff(k);
    }
  }

  /**
   * In any run under a monotone clock in which one release is offered throughout, attempt number `k + 1` (for
   * every `k` below 64) carries that number, is for that release, and starts no earlier than the first attempt
   * plus the whole capped doubling backoff.
   */
  lemma RetriesBackOff(c: Config, files: map<string, H256>, pointer: Option<string>, events: seq<Event>,
                       track: ReleaseInfo, k: nat)
    requires MonotoneClock(events) && OnlyOffers(track, events)
    requires k < |Run(c, Init(files, pointer), events).attempts| && k < 64
    ensures var attempts := Run(c, Init(files, pointer), events).attempts;
            && attempts[k].release == track
            && attempts[k].retries == k + 1
            && attempts[k].at >= attempts[0].at + TotalBackoff(k) as real
  {
    AttemptsSpaced(c, files, pointer, events, if events == [] then 0.0 else events[0].began);
    RunSteady(c, files, pointer, events, track);
    SpacingAddsUp(Run(c, Init(files, pointer), events).attempts, k);
  }
}
