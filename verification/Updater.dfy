/** The updater object: fields changed in place under its lock, method by method as in the service. */
module Updater {
  import opened Numerals
  import opened Arithmetic
  import opened UpdaterModel
  import opened UpdaterSafety

  class Updater {
    const config: Config
    var latest: Option<OperationsInfo>
    var capability: CapState
    var status: Status
    var clientDisabled: bool
    var files: map<string, H256>
    var pointer: Option<string>
    var panicked: bool
    var inFlight: set<Callback>
    ghost var attempts: seq<Attempt>
    ghost var installs: seq<Install>

    ghost function View(): State
      reads this
    {
      State(latest, capability, status, clientDisabled, files, pointer, panicked, inFlight, attempts, installs)
    }

    /** A new updater is idle, and polls once before anything else happens. */
    constructor (config: Config, files: map<string, H256>, pointer: Option<string>, first: Event)
      requires first.Poll?
      ensures this.config == config && View() == Run(config, Init(files, pointer), [first]) && Inv(config, View())
    {
      this.config := config;
      latest, capability, status, clientDisabled := None, CapUnknown, Idle, false;
      this.files, this.pointer, panicked := files, pointer, false;
      inFlight, attempts, installs := {}, [], [];
      new;
      assert View() == Init(files, pointer);
      Poll(first.secure, first.block, first.offer, first.env);
      RunKeeps(config, files, pointer, [first]);
      assert [first][..0] == [];
    }

    /** Hand a download to the fetcher; its callback may come at any later time, any number of times. */
    method Fetch(info: OperationsInfo, release: ReleaseInfo, binary: H256, retries: nat, ghost at: real)
      requires Holds(status) == Some(release)
      modifies this
      ensures View() == StartFetch(old(View()), info, binary, retries, at)
    {
      status := Fetching(release, binary, retries);
      inFlight := inFlight + {Callback(info, binary)};
      attempts := attempts + [Attempt(release, binary, retries, at)];
    }

    method ExecuteUpgradeWith(write: PointerWrite, ghost manual: bool) returns (done: bool)
      modifies this
      ensures View() == ExecuteUpgrade(old(View()), write, manual)
      ensures done <==> old(status).Ready? && status == Installed(old(status).release)
    {
      if status.Ready? {
        var release := status.release;
        var file := FileName(release.version);
        match write {
          case PointerFailed(left) =>
            pointer := left;
            status := Disabled;
            return false;
          case PointerWritten =>
            pointer := Some(file);
            status := Installed(release);
            installs := installs + [Install(release, manual)];
            return true;
        }
      }
      return false;
    }

    /** The arms of `updater_step` that recognise the status; `handled` is false when the catch-all one is due. */
    method HandleStatus(info: OperationsInfo, r: Reading) returns (handled: bool)
      modifies this
      ensures var h := Handle(config, old(View()), info, r);
              handled == h.Some? && View() == (if handled then h.value else old(View()))
      // nothing is downloaded before the block that was drawn
      ensures old(status).Waiting? && old(status).release == info.track && r.block < old(status).block ==>
                handled && View() == old(View())
    {
      match status {
        case Disabled => return true;
        case Installed(release) => return release == info.track;
        case Fetching(release, _, _) => return release == info.track;
        case FetchBackoff(release, binary, retries, until) =>
          if release == info.track && r.now1 < until {
            return true;
          }
          if release == info.track && r.now2 >= until {
            Fetch(info, release, binary, retries + 1, r.now2);
            return true;
          }
        case Waiting(release, binary, block) =>
          if release == info.track && r.block < block {
            return true;
          }
          if release == info.track && r.block >= block {
            Fetch(info, release, binary, 1, r.now2);
            return true;
          }
        case Ready(release) =>
          if release == info.track {
            if AutoInstall(config, release) {
              var _ := ExecuteUpgradeWith(r.write, false);
            }
            return true;
          }
        case Idle =>
      }
      return false;
    }

    /** The catch-all arm of `updater_step`; `again` tells whether it steps once more. */
    method TriggerUpdate(info: OperationsInfo, r: Reading) returns (again: bool)
      modifies this
      ensures (View(), again) == Trigger(config, old(View()), info, r)
    {
      if info.track.binary == None {
        return false;
      }
      var runningLater := info.track.version.version.Less(config.running.version);
      var runningLatest := info.track.version.hash == config.running.hash;
      if runningLater || runningLatest {
        return false;
      }
      if FileName(info.track.version) in files {
        status := Ready(info.track);
        return true;
      }
      if !config.enableDownloading {
        return false;
      }
      var maxDelay := config.maxDelay;
      if info.fork >= r.block && info.fork - r.block < maxDelay {
        maxDelay := info.fork - r.block;
      }
      var start: u64 := r.block;
      if r.releaseBlock.Some? {
        if maxDelay == 0 {
          panicked := true;
          return false;
        }
        start := SaturatingAdd(r.releaseBlock.value, r.draw % maxDelay);
      }
      status := Waiting(info.track, info.track.binary.value, start);
      return start <= r.block;
    }

    method UpdaterStep(env: Env, i: nat)
      modifies this
      ensures View() == Step(config, old(View()), env, i)
      decreases Rank(View())
    {
      if latest == None {
        return;
      }
      var handled := HandleStatus(latest.value, env(i));
      if !handled {
        var again := TriggerUpdate(latest.value, env(i));
        if again {
          UpdaterStep(env, i + 1);
        }
      }
    }

    method Poll(secure: bool, block: u64, offer: Option<OperationsInfo>, env: Env)
      modifies this
      ensures View() == PollStep(config, old(View()), secure, block, offer, env)
    {
      if !secure {
        return;
      }
      var frequency := if config.frequency < 1 then 1 else config.frequency;
      if block % frequency != 0 {
        return;
      }
      if offer.Some? {
        var info := offer.value;
        if info.thisFork.Some? && info.thisFork.value < info.fork {
          if block >= info.fork - 1 {
            if config.requireConsensus {
              clientDisabled := true;
            }
            capability := IncapableSince(info.fork);
          } else {
            capability := CapableUntil(info.fork);
          }
        } else if info.thisFork.Some? {
          capability := Capable;
        } else {
          capability := CapUnknown;
        }
        if latest != Some(info) {
          latest := Some(info);
        }
      }
      UpdaterStep(env, 0);
    }

    method OnFetch(callback: Callback, ok: bool, copy: CopyResult, now: real, env: Env)
      modifies this
      ensures View() == FetchedStep(config, old(View()), callback, ok, copy, now, env)
    {
      if latest != Some(callback.latest) {
        return;
      }
      if status.Fetching? {
        var Fetching(release, binary, retries) := status;
        if ok {
          var dest := FileName(release.version);
          var failed := false;
          if dest !in files {
            match copy {
              case Copied => files := files[dest := callback.binary];
              case CopyFailed(left) =>
                if left.Some? {
                  files := files[dest := left.value];
                }
                failed := true;
            }
          }
          if failed {
            status := Disabled;
          } else {
            status := Ready(release);
            UpdaterStep(env, 0);
          }
        } else {
          var power := Pow2(retries) % TWO_64;
          var delay := if power < MAX_BACKOFF then power else MAX_BACKOFF;
          status := FetchBackoff(release, binary, retries, now + delay as real);
        }
      }
    }

    /** The service call by which an operator installs what is ready. */
    method ManualUpgrade(write: PointerWrite) returns (done: bool)
      modifies this
      ensures View() == ExecuteUpgrade(old(View()), write, true)
      ensures done <==> old(status).Ready? && status == Installed(old(status).release)
    {
      done := ExecuteUpgradeWith(write, true);
    }

    /** Any events, in any order and number: the object runs as the model does, and keeps what its runs keep. */
    method Drive(events: seq<Event>)
      modifies this
      ensures View() == Run(config, old(View()), events)
      ensures old(Inv(config, View())) ==> Inv(config, View())
    {
      hide Inv, PollStep, FetchedStep, ExecuteUpgrade;
      assert events[..0] == [];
      for i := 0 to |events|
        invariant View() == Run(config, old(View()), events[..i])
        invariant old(Inv(config, View())) ==> Inv(config, View())
      {
        var e := events[i];
        assert events[..i + 1][..i] == events[..i];
        if Inv(config, View()) {
          ApplyKeeps(config, View(), e);
        }
        if !panicked {
          match e {
            case Poll(_, _, secure, block, offer, env) => Poll(secure, block, offer, env);
            case Fetched(_, _, callback, ok, copy, now, env) =>
              if callback in inFlight {
                OnFetch(callback, ok, copy, now, env);
              }
            case Manual(_, _, write) => var _ := ManualUpgrade(write);
          }
        }
      }
      assert events[..|events|] == events;
    }
  }
}
