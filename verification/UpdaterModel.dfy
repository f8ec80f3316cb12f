/** The auto-updater's data and its transitions, as functions of the state and of everything it reads. */
module UpdaterModel {
  import opened Numerals
  import opened Arithmetic

  type H256 = nat

  const TWO_160: nat := 0x1_0000000000_0000000000_0000000000_0000000000

  type H160 = n: nat | n < TWO_160

  datatype ReleaseTrack = Stable | Nightly | UnknownTrack

  datatype Version = Version(major: nat, minor: nat, patch: nat) {
    predicate Less(other: Version) {
      || major < other.major
      || (major == other.major && minor < other.minor)
      || (major == other.major && minor == other.minor && patch < other.patch)
    }
  }

  datatype VersionInfo = VersionInfo(track: ReleaseTrack, version: Version, hash: H160)

  datatype ReleaseInfo = ReleaseInfo(version: VersionInfo, isCritical: bool, fork: u64, binary: Option<H256>)

  datatype OperationsInfo =
    OperationsInfo(fork: u64, thisFork: Option<u64>, track: ReleaseInfo, minor: Option<ReleaseInfo>)

  datatype CapState = CapUnknown | Capable | CapableUntil(u64) | IncapableSince(u64)

  datatype Filter = All | Critical | NoUpdates

  /** The update policy together with the version that is running. */
  datatype Config = Config(
    enableDownloading: bool,
    requireConsensus: bool,
    filter: Filter,
    maxDelay: u64,
    frequency: u64,
    running: VersionInfo)

  datatype Status =
    | Disabled
    | Idle
    | Waiting(release: ReleaseInfo, binary: H256, block: u64)
    | Fetching(release: ReleaseInfo, binary: H256, retries: nat)
    | FetchBackoff(release: ReleaseInfo, binary: H256, retries: nat, until: real)
    | Ready(release: ReleaseInfo)
    | Installed(release: ReleaseInfo)

  /** A download handed to the fetcher: the operations info its closure captured and the hash asked for. */
  datatype Callback = Callback(latest: OperationsInfo, binary: H256)

  /** History: one entry for each download started. */
  datatype Attempt = Attempt(release: ReleaseInfo, binary: H256, retries: nat, at: real)

  /** History: one entry for each completed installation. */
  datatype Install = Install(release: ReleaseInfo, manual: bool)

  datatype State = State(
    latest: Option<OperationsInfo>,
    capability: CapState,
    status: Status,
    clientDisabled: bool,
    // the updates directory: digest of each binary by file name, and the text of the file `latest`
    files: map<string, H256>,
    pointer: Option<string>,
    // set when the random generator was asked for a number from an empty range, which panics
    panicked: bool,
    inFlight: set<Callback>,
    attempts: seq<Attempt>,
    installs: seq<Install>)

  /** Result of creating and writing the file `latest`; a failure may leave anything there. */
  datatype PointerWrite = PointerWritten | PointerFailed(left: Option<string>)

  /** Result of copying a download into the updates directory; a failure may leave a partial file. */
  datatype CopyResult = Copied | CopyFailed(left: Option<H256>)

  /** What one activation of `updater_step` reads from its surroundings. */
  datatype Reading = Reading(
    block: u64,
    now1: real,
    now2: real,
    releaseBlock: Option<u64>,
    draw: u64,
    write: PointerWrite)

  type Env = nat -> Reading

  datatype Event =
    | Poll(began: real, ended: real, secure: bool, block: u64, offer: Option<OperationsInfo>, env: Env)
    | Fetched(began: real, ended: real, callback: Callback, ok: bool, copy: CopyResult, now: real, env: Env)
    | Manual(began: real, ended: real, write: PointerWrite)

  /** Every offer in the events is one of a given set. */
  ghost predicate OffersFrom(offers: iset<OperationsInfo>, events: seq<Event>) {
    forall k :: 0 <= k < |events| && events[k].Poll? && events[k].offer.Some? ==> events[k].offer.value in offers
  }

  ghost predicate Offered(offers: iset<OperationsInfo>, r: ReleaseInfo) {
    exists o :: o in offers && o.track == r
  }

  /** Surroundings that stay as they are: one head, one time, one release block; every write succeeds. */
  function Quiet(block: u64, at: real, releaseBlock: Option<u64>): Env {
    _ => Reading(block, at, at, releaseBlock, 0, PointerWritten)
  }

  /** A poll that gets an offer and finds no release block, so that a download need not wait. */
  function Announce(o: OperationsInfo, at: real): Event {
    Poll(at, at, true, 0, Some(o), Quiet(0, at, None))
  }

  /** The callback of the download for an offer. */
  function Finish(o: OperationsInfo, ok: bool, at: real): Event
    requires o.track.binary.Some?
  {
    Fetched(at, at, Callback(o, o.track.binary.value), ok, Copied, at, Quiet(0, at, None))
  }

  function MinorPatchHash(v: VersionInfo): string {
    Print(v.version.minor) + "." + (Print(v.version.patch) + "-" + Hex(v.hash, 40))
  }

  /** `update_file_name`: only the version numbers and the commit hash go into the name. */
  function FileName(v: VersionInfo): string {
    "parity-" + (Print(v.version.major) + "." + MinorPatchHash(v))
  }

  function Holds(s: Status): Option<ReleaseInfo> {
    match s
    case Disabled => None
    case Idle => None
    case Waiting(r, _, _) => Some(r)
    case Fetching(r, _, _) => Some(r)
    case FetchBackoff(r, _, _, _) => Some(r)
    case Ready(r) => Some(r)
    case Installed(r) => Some(r)
  }

  /** Neither the running build nor older than it, and published with a checksum. */
  predicate Eligible(c: Config, r: ReleaseInfo) {
    && r.binary.Some?
    && !r.version.version.Less(c.running.version)
    && r.version.hash != c.running.hash
  }

  predicate AutoInstall(c: Config, r: ReleaseInfo) {
    c.filter.All? || (c.filter.Critical? && r.isCritical)
  }

  const MAX_BACKOFF: nat := 24 * 60 * 60

  /** Seconds to wait after failure number `retries`; the power is a 64-bit one and wraps. */
  function BackoffSeconds(retries: nat): nat {
    var delay := Pow2(retries) % TWO_64;
    if delay < MAX_BACKOFF then delay else MAX_BACKOFF
  }

  function SaturatingAdd(a: u64, b: u64): u64 {
    if a + b < TWO_64 then a + b else TWO_64 - 1
  }

  function SaturatingSub(a: u64, b: u64): u64 {
    if a < b then 0 else a - b
  }

  function EffectiveDelay(c: Config, fork: u64, block: u64): u64 {
    if fork >= block && fork - block < c.maxDelay then fork - block else c.maxDelay
  }

  /** The block at which the download starts; nothing if the generator is asked for an empty range. */
  function StartBlock(c: Config, latest: OperationsInfo, r: Reading): Option<u64> {
    var delay := EffectiveDelay(c, latest.fork, r.block);
    match r.releaseBlock
    case None => Some(r.block)
    case Some(b) => if delay == 0 then None else Some(SaturatingAdd(b, r.draw % delay))
  }

  function StartFetch(s: State, latest: OperationsInfo, binary: H256, retries: nat, at: real): State
    requires Holds(s.status).Some?
  {
    var release := Holds(s.status).value;
    s.(status := Fetching(release, binary, retries),
       inFlight := s.inFlight + {Callback(latest, binary)},
       attempts := s.attempts + [Attempt(release, binary, retries, at)])
  }

  /** `execute_upgrade`: point `latest` at the downloaded file. */
  function ExecuteUpgrade(s: State, write: PointerWrite, manual: bool): State {
    if !s.status.Ready? then s
    else match write
      case PointerFailed(left) => s.(status := Disabled, pointer := left)
      case PointerWritten =>
        var release := s.status.release;
        s.(status := Installed(release),
           pointer := Some(FileName(release.version)),
           installs := s.installs + [Install(release, manual)])
  }

  /** The catch-all arm of `updater_step`; the second result tells whether it calls itself again. */
  function Trigger(c: Config, s: State, latest: OperationsInfo, r: Reading): (State, bool) {
    if !Eligible(c, latest.track) then (s, false)
    else if FileName(latest.track.version) in s.files then (s.(status := Ready(latest.track)), true)
    else if !c.enableDownloading then (s, false)
    else match StartBlock(c, latest, r)
      case None => (s.(panicked := true), false)
      case Some(start) =>
        (s.(status := Waiting(latest.track, latest.track.binary.value, start)), start <= r.block)
  }

  /** Zero when the status is one that `updater_step` handles without triggering a new update. */
  function Rank(s: State): nat {
    if s.latest.Some? && (s.status.Waiting? || s.status.Ready?) && s.status.release == s.latest.value.track
    then 0 else 1
  }

  /** The arms of `updater_step` before the catch-all one; nothing when none of them applies. */
  function Handle(c: Config, s: State, latest: OperationsInfo, r: Reading): Option<State> {
    if s.status.Disabled? then Some(s)
    else if Holds(s.status) != Some(latest.track) then None
    else match s.status
      case Installed(_) => Some(s)
      case Fetching(_, _, _) => Some(s)
      case FetchBackoff(_, binary, retries, until) =>
        if r.now1 < until then Some(s)
        else if r.now2 >= until then Some(StartFetch(s, latest, binary, retries + 1, r.now2))
        else None
      case Waiting(_, binary, block) =>
        if r.block < block then Some(s) else Some(StartFetch(s, latest, binary, 1, r.now2))
      case Ready(release) =>
        if AutoInstall(c, release) then Some(ExecuteUpgrade(s, r.write, false)) else Some(s)
  }

  /** `updater_step`, reading its surroundings at `env(i)`, and at `env(i + 1)` when it calls itself. */
  function Step(c: Config, s: State, env: Env, i: nat): State
    decreases Rank(s)
  {
    if s.latest.None? then s
    else match Handle(c, s, s.latest.value, env(i))
      case Some(s') => s'
      case None =>
        var (s', again) := Trigger(c, s, s.latest.value, env(i));
        if again then Step(c, s', env, i + 1) else s'
  }

  function Capability(latest: OperationsInfo, block: u64): CapState {
    match latest.thisFork
    case None => CapUnknown
    case Some(f) =>
      if f >= latest.fork then Capable
      else if block >= latest.fork - 1 then IncapableSince(latest.fork)
      else CapableUntil(latest.fork)
  }

  /** The record `poll` updates before it steps. */
  function Received(c: Config, s: State, block: u64, offer: Option<OperationsInfo>): State {
    match offer
    case None => s
    case Some(latest) =>
      var cap := Capability(latest, block);
      s.(latest := Some(latest), capability := cap,
         clientDisabled := s.clientDisabled || (cap.IncapableSince? && c.requireConsensus))
  }

  function PollStep(c: Config, s: State, secure: bool, block: u64, offer: Option<OperationsInfo>, env: Env): State {
    if !secure || block % (if c.frequency == 0 then 1 else c.frequency) != 0 then s
    else Step(c, Received(c, s, block, offer), env, 0)
  }

  predicate Accepts(s: State, callback: Callback) {
    s.latest == Some(callback.latest) && s.status.Fetching?
  }

  /** The state in which a good download has been put in place. */
  function Delivered(s: State, callback: Callback): State
    requires s.status.Fetching?
  {
    var dest := FileName(s.status.release.version);
    s.(status := Ready(s.status.release),
       files := if dest in s.files then s.files else s.files[dest := callback.binary])
  }

  /** `on_fetch` for a download whose content matches the hash asked for, as the fetcher guarantees. */
  function FetchedStep(c: Config, s: State, callback: Callback, ok: bool, copy: CopyResult, now: real, env: Env): State
  {
    if !Accepts(s, callback) then s
    else if !ok then
      s.(status := FetchBackoff(s.status.release, s.status.binary, s.status.retries,
                                now + BackoffSeconds(s.status.retries) as real))
    else
      var dest := FileName(s.status.release.version);
      if dest in s.files || copy.Copied? then Step(c, Delivered(s, callback), env, 0)
      else s.(status := Disabled, files := if copy.left.Some? then s.files[dest := copy.left.value] else s.files)
  }

  /** One event. A callback that was never issued cannot arrive, and a process that panicked does nothing. */
  function Apply(c: Config, s: State, e: Event): State {
    if s.panicked then s
    else match e
      case Poll(_, _, secure, block, offer, env) => PollStep(c, s, secure, block, offer, env)
      case Fetched(_, _, callback, ok, copy, now, env) =>
        if callback in s.inFlight then FetchedStep(c, s, callback, ok, copy, now, env) else s
      case Manual(_, _, write) => ExecuteUpgrade(s, write, true)
  }

  function Init(files: map<string, H256>, pointer: Option<string>): State {
    State(None, CapUnknown, Idle, false, files, pointer, false, {}, [], [])
  }

  /** The state after a sequence of events. */
  function Run(c: Config, s: State, events: seq<Event>): State {
    if events == [] then s else Apply(c, Run(c, s, events[..|events| - 1]), events[|events| - 1])
  }
}
