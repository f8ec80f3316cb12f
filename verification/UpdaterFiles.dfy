/** Where the files in the updates directory come from, and what their names stand for. */
module UpdaterFiles {
  import opened Numerals
  import opened Arithmetic
  import opened UpdaterModel
  import opened UpdaterSafety

  /** Digit strings followed by a separator can be told apart from what comes after it. */
  lemma {:induction false} SplitAtSeparator(a: string, x: string, b: string, y: string, sep: char)
    requires AllDigits(a) && AllDigits(b) && !IsDigit(sep)
    requires a + [sep] + x == b + [sep] + y
    ensures a == b && x == y
  {
    var s := a + [sep] + x;
    assert s[|a|] == sep && s[|b|] == sep;
    assert forall i :: 0 <= i < |b| ==> s[i] == b[i];
    assert |a| == |b|;
    assert a == s[..|a|] == b;
    assert x == s[|a| + 1..] == y;
  }

  /** Hexadecimal: digit `k` from the end is that of the number divided by 16 to the power of `k`. */
  lemma {:induction false} HexIs(n: nat, width: nat, k: nat)
    requires k < width
    ensures Hex(n, width)[width - 1 - k] == "0123456789abcdef"[n / Pow16(k) % 16]
  {
    if k > 0 {
      HexIs(n / 16, width - 1, k - 1);
      DivideTwice(n, 16, Pow16(k - 1));
      assert n / Pow16(k) == n / 16 / Pow16(k - 1);
      hide Pow16;
    }
  }

  /** The name of an update: version numbers with dots, a dash, and the commit hash as forty hexadecimal digits. */
  lemma FileNameIs(v: VersionInfo)
    ensures FileName(v) == "parity-" + Print(v.version.major) + "." + Print(v.version.minor) + "."
                           + Print(v.version.patch) + "-" + Hex(v.hash, 40)
  {
    hide Print, Hex;
  }

  lemma Pow16Of40()
    ensures Pow16(40) == TWO_160
  {
    assert Pow16(8) == 0x1_0000_0000;
    assert Pow16(16) == 0x1_0000_0000_0000_0000;
    assert Pow16(24) == 0x1_0000_0000_0000_0000_0000_0000;
    assert Pow16(32) == 0x1_0000_0000_0000_0000_0000_0000_0000_0000;
  }

  lemma SameMinorPatchHash(v: VersionInfo, w: VersionInfo)
    requires MinorPatchHash(v) == MinorPatchHash(w)
    ensures v.version.minor == w.version.minor && v.version.patch == w.version.patch && v.hash == w.hash
  {
    var x := Print(v.version.patch) + "-" + Hex(v.hash, 40);
    var y := Print(w.version.patch) + "-" + Hex(w.hash, 40);
    PrintDigits(v.version.minor);
    PrintDigits(w.version.minor);
    PrintDigits(v.version.patch);
    PrintDigits(w.version.patch);
    SplitAtSeparator(Print(v.version.minor), x, Print(w.version.minor), y, '.');
    SplitAtSeparator(Print(v.version.patch), Hex(v.hash, 40), Print(w.version.patch), Hex(w.hash, 40), '-');
    Pow16Of40();
    HexInjective(v.hash, w.hash, 40);
  }

  lemma SameAfterPrefix(prefix: string, x: string, y: string)
    requires prefix + x == prefix + y
    ensures x == y
  {
    assert x == (prefix + x)[|prefix|..] == (prefix + y)[|prefix|..] == y;
  }

  /** Two releases share a file name exactly when version numbers and commit hash agree. */
  lemma FileNameIdentifiesBuild(v: VersionInfo, w: VersionInfo)
    ensures FileName(v) == FileName(w) <==> v.version == w.version && v.hash == w.hash
    ensures FileName(v) != "latest"
  {
    assert FileName(v)[0] == 'p';
    if FileName(v) == FileName(w) {
      var a, b := Print(v.version.major), Print(w.version.major);
      SameAfterPrefix("parity-", a + "." + MinorPatchHash(v), b + "." + MinorPatchHash(w));
      PrintDigits(v.version.major);
      PrintDigits(w.version.major);
      SplitAtSeparator(a, MinorPatchHash(v), b, MinorPatchHash(w), '.');
      SameMinorPatchHash(v, w);
    }
  }

  ghost predicate Logged(attempts: seq<Attempt>, release: ReleaseInfo, binary: H256) {
    exists k :: 0 <= k < |attempts| && attempts[k].release == release && attempts[k].binary == binary
  }

  /** A download that was logged, for a release of this file name and with this checksum. */
  ghost predicate Downloaded(attempts: seq<Attempt>, name: string, digest: H256) {
    exists k :: 0 <= k < |attempts| && FileName(attempts[k].release.version) == name
                && attempts[k].release.binary == Some(digest)
  }

  ghost predicate Traced(s: State) {
    forall cb :: cb in s.inFlight ==> Logged(s.attempts, cb.latest.track, cb.binary)
  }

  ghost predicate Sourced(files0: map<string, H256>, s: State) {
    forall name :: name in s.files && !s.status.Disabled? ==>
      (name in files0 && s.files[name] == files0[name]) || Downloaded(s.attempts, name, s.files[name])
  }

  ghost predicate Preserves(files0: map<string, H256>, s: State) {
    forall name :: name in files0 ==> name in s.files && s.files[name] == files0[name]
  }

  lemma HandleTraces(c: Config, s: State, l: OperationsInfo, e: Reading)
    requires Traced(s) && Handle(c, s, l, e).Some?
    ensures var s' := Handle(c, s, l, e).value; Traced(s') && s.attempts <= s'.attempts
  {
    var s' := Handle(c, s, l, e).value;
    forall cb | cb in s'.inFlight
      ensures Logged(s'.attempts, cb.latest.track, cb.binary)
    {
      if cb in s.inFlight {
        var k :| 0 <= k < |s.attempts| && s.attempts[k].release == cb.latest.track && s.attempts[k].binary == cb.binary;
        assert s'.attempts[k] == s.attempts[k];
      } else {
        assert s'.attempts[|s.attempts|].release == cb.latest.track;
      }
    }
  }

  lemma {:induction false} StepTraces(c: Config, s: State, env: Env, i: nat)
    requires Traced(s)
    ensures Traced(Step(c, s, env, i)) && s.attempts <= Step(c, s, env, i).attempts
    decreases Rank(s)
  {
    if s.latest.Some? {
      if Handle(c, s, s.latest.value, env(i)).Some? {
        HandleTraces(c, s, s.latest.value, env(i));
      } else {
        hide Handle, Logged;
        var (s', again) := Trigger(c, s, s.latest.value, env(i));
        if again {
          StepTraces(c, s', env, i + 1);
        }
      }
    }
  }

  lemma StepSources(c: Config, files0: map<string, H256>, s: State, env: Env, i: nat)
    requires Traced(s) && Sourced(files0, s) && Preserves(files0, s)
    ensures var s' := Step(c, s, env, i); Traced(s') && Sourced(files0, s') && Preserves(files0, s')
  {
    StepTraces(c, s, env, i);
    StepKeepsFiles(c, s, env, i);
    StepKeepsDisabled(c, s, env, i);
    var s' := Step(c, s, env, i);
    forall name | name in s'.files && !s'.status.Disabled?
      ensures (name in files0 && s'.files[name] == files0[name]) || Downloaded(s'.attempts, name, s'.files[name])
    {
      if Downloaded(s.attempts, name, s.files[name]) {
        var k :| 0 <= k < |s.attempts| && FileName(s.attempts[k].release.version) == name
                 && s.attempts[k].release.binary == Some(s.files[name]);
        assert s'.attempts[k] == s.attempts[k];
      }
    }
  }

  lemma StepKeepsDisabled(c: Config, s: State, env: Env, i: nat)
    ensures s.status.Disabled? ==> Step(c, s, env, i) == s
  {
  }

  lemma FetchedSources(c: Config, files0: map<string, H256>, s: State, e: Event)
    requires Inv(c, s) && Traced(s) && Sourced(files0, s) && Preserves(files0, s) && !s.panicked
    requires e.Fetched? && e.callback in s.inFlight && Accepts(s, e.callback)
    ensures var s' := Apply(c, s, e); Traced(s') && Sourced(files0, s') && Preserves(files0, s')
  {
    hide Step;
    var cb := e.callback;
    assert CallbackOk(c, cb) && Logged(s.attempts, cb.latest.track, cb.binary);
    var d := Delivered(s, cb);
    assert s.status.release == cb.latest.track;
    assert Downloaded(s.attempts, FileName(cb.latest.track.version), cb.binary);
    assert Sourced(files0, d) && Traced(d) && Preserves(files0, d);
    StepSources(c, files0, d, e.env, 0);
  }

  lemma {:induction false} RunSources(c: Config, files: map<string, H256>, pointer: Option<string>, events: seq<Event>)
    ensures var s := Run(c, Init(files, pointer), events); Traced(s) && Sourced(files, s) && Preserves(files, s)
  {
    hide Step, Inv, Logged, Downloaded;
    if events != [] {
      var before, e := events[..|events| - 1], events[|events| - 1];
      RunSources(c, files, pointer, before);
      RunKeeps(c, files, pointer, before);
      var s := Run(c, Init(files, pointer), before);
      if !s.panicked {
        if e.Poll? {
          StepSources(c, files, Received(c, s, e.block, e.offer), e.env, 0);
        } else if e.Fetched? && e.callback in s.inFlight && Accepts(s, e.callback) {
          FetchedSources(c, files, s, e);
        }
      }
    }
  }

  /**
   * No binary is ever recorded under another release: files that were there are never touched, and until a
   * fatal error every other file is the download of an attempt for a release of that very name and checksum.
   */
  lemma EveryFileHasItsDownload(c: Config, files: map<string, H256>, pointer: Option<string>, events: seq<Event>,
                                name: string)
    requires name in Run(c, Init(files, pointer), events).files
    ensures var s := Run(c, Init(files, pointer), events);
            && (name in files ==> s.files[name] == files[name])
            && (name !in files && !s.status.Disabled? ==> Downloaded(s.attempts, name, s.files[name]))
  {
    RunSources(c, files, pointer, events);
  }
}
