/**
 * The exit protocol of the node's main function, as an interleaving of any number of handler activations with
 * the main thread. They share an atomic flag, a mutex around the exit status and a condition variable.
 *
 * The condition variable wakes a waiter only when notified, as the one in use guarantees.
 */
module ExitProtocol {
  import opened Numerals

  const PLEASE_RESTART: int := 69

  /** The four handlers: restart on another chain, restart, a panic somewhere, and Ctrl-C. */
  datatype Kind = RestartOn(chain: string) | Restart | Panic | Interrupt

  datatype ExitStatus =
    ExitStatus(panicking: bool, shouldExit: bool, shouldRestart: bool, specName: Option<string>)

  const INITIAL: ExitStatus := ExitStatus(false, false, false, None)

  function StatusOf(k: Kind): ExitStatus {
    match k
    case RestartOn(chain) => ExitStatus(false, true, true, Some(chain))
    case Restart => ExitStatus(false, true, true, None)
    case Panic => ExitStatus(true, true, false, None)
    case Interrupt => ExitStatus(false, true, false, None)
  }

  /** What the process should end with when the handler of this kind asked for it. */
  function CodeOf(k: Kind): int {
    match k
    case RestartOn(_) => PLEASE_RESTART
    case Restart => PLEASE_RESTART
    case Panic => 1
    case Interrupt => 0
  }

  /** Points of a handler: before the swap, lost it, won it, holding the lock, status stored, unlocked, notified. */
  datatype HandlerPoint = Entered | Lost | Won | Locked | Stored | Unlocked | Notified

  datatype Handler = Handler(kind: Kind, point: HandlerPoint)

  datatype StartResult = Running | Instant | Failed

  /**
   * Program points of the main thread: starting the client, about to lock, lock taken, waiting on the condition,
   * woken and about to lock again, shutting down with the lock held, and gone (after waiting, or right away).
   */
  datatype MainPoint = Starting | ToLock | Checking | Waiting | Woken | ShuttingDown | Exited(code: int, waited: bool)

  datatype Owner = Nobody | ByMain | ByHandler(id: nat)

  datatype State = State(
    canRestart: bool,
    exiting: bool,
    owner: Owner,
    status: ExitStatus,
    main: MainPoint,
    handlers: map<nat, Handler>,
    // contents of the chain override file written for the next start
    specFile: Option<string>,
    // history: who won the swap, and how often the status was stored
    winner: Option<nat>,
    stores: nat)

  datatype Action = Invoke(id: nat, kind: Kind) | Advance(id: nat) | Start(result: StartResult) | Main

  function Init(canRestart: bool): State {
    State(canRestart, false, Nobody, INITIAL, Starting, map[], None, None, 0)
  }

  /** Restart closures exist only when restarting is allowed; the other two are set once the client runs. */
  predicate Installed(s: State, k: Kind) {
    if k.RestartOn? || k.Restart? then s.canRestart else !s.main.Starting?
  }

  /** The next atomic action of handler `id`; nothing when it is blocked or finished. */
  function AdvanceHandler(s: State, id: nat): Option<State>
    requires id in s.handlers
  {
    var h := s.handlers[id];
    match h.point
    case Entered =>
      if s.exiting then Some(s.(handlers := s.handlers[id := h.(point := Lost)]))
      else Some(s.(exiting := true, winner := Some(id), handlers := s.handlers[id := h.(point := Won)]))
    case Won =>
      if s.owner.Nobody? then Some(s.(owner := ByHandler(id), handlers := s.handlers[id := h.(point := Locked)]))
      else None
    case Locked =>
      Some(s.(status := StatusOf(h.kind), stores := s.stores + 1, handlers := s.handlers[id := h.(point := Stored)]))
    case Stored =>
      Some(s.(owner := Nobody, handlers := s.handlers[id := h.(point := Unlocked)]))
    case Unlocked =>
      Some(s.(main := if s.main.Waiting? then Woken else s.main, handlers := s.handlers[id := h.(point := Notified)]))
    case Lost => None
    case Notified => None
  }

  /** The exit code the main thread computes, and the override file it leaves. */
  function Finish(s: State): State {
    if s.status.shouldRestart then
      s.(main := Exited(PLEASE_RESTART, true), owner := Nobody,
         specFile := if s.status.specName.Some? then s.status.specName else s.specFile)
    else s.(main := Exited(if s.status.panicking then 1 else 0, true), owner := Nobody)
  }

  /** The next atomic action of the main thread after start-up; nothing when it is blocked or finished. */
  function AdvanceMain(s: State): Option<State> {
    match s.main
    case Starting => None
    case ToLock => if s.owner.Nobody? then Some(s.(main := Checking, owner := ByMain)) else None
    case Checking =>
      if s.status.shouldExit then Some(s.(main := ShuttingDown))
      else Some(s.(main := Waiting, owner := Nobody))
    case Waiting => None
    case Woken => if s.owner.Nobody? then Some(s.(main := ShuttingDown, owner := ByMain)) else None
    case ShuttingDown => Some(Finish(s))
    case Exited(_, _) => None
  }

  function Next(s: State, a: Action): Option<State> {
    match a
    case Invoke(id, kind) =>
      if id !in s.handlers && Installed(s, kind) then Some(s.(handlers := s.handlers[id := Handler(kind, Entered)]))
      else None
    case Advance(id) => if id in s.handlers then AdvanceHandler(s, id) else None
    case Start(result) =>
      if !s.main.Starting? then None
      else if result.Running? then Some(s.(main := ToLock))
      else Some(s.(main := Exited(if result.Instant? then 0 else 1, false)))
    case Main => AdvanceMain(s)
  }

  /** The state after a schedule, if every action was possible when its turn came. */
  function Run(s: State, schedule: seq<Action>): Option<State> {
    if schedule == [] then Some(s)
    else match Run(s, schedule[..|schedule| - 1])
      case None => None
      case Some(s') => Next(s', schedule[|schedule| - 1])
  }

  predicate HasStored(p: HandlerPoint) {
    p.Stored? || p.Unlocked? || p.Notified?
  }

  /** One winner, the swap flag and the winner agree, and everybody else is before the swap or has lost it. */
  ghost predicate WinnerOk(s: State) {
    && s.exiting == s.winner.Some?
    && (s.winner.Some? ==>
          && s.winner.value in s.handlers
          && !s.handlers[s.winner.value].point.Entered?
          && !s.handlers[s.winner.value].point.Lost?)
    && (forall id :: id in s.handlers && s.winner != Some(id) ==>
          s.handlers[id].point.Entered? || s.handlers[id].point.Lost?)
  }

  ghost predicate OwnerOk(s: State) {
    && (s.owner.ByMain? <==> s.main.Checking? || s.main.ShuttingDown?)
    && (s.owner.ByHandler? ==> s.winner == Some(s.owner.id))
    && (s.winner.Some? && s.winner.value in s.handlers ==>
          var point := s.handlers[s.winner.value].point;
          s.owner.ByHandler? <==> point.Locked? || point.Stored?)
  }

  ghost predicate StatusOk(s: State) {
    if s.winner.Some? && s.winner.value in s.handlers && HasStored(s.handlers[s.winner.value].point)
    then s.status == StatusOf(s.handlers[s.winner.value].kind) && s.stores == 1
    else s.status == INITIAL && s.stores == 0
  }

  /** The winner is known and has given the lock back. */
  ghost predicate WinnerUnlocked(s: State) {
    && s.winner.Some? && s.winner.value in s.handlers
    && (s.handlers[s.winner.value].point.Unlocked? || s.handlers[s.winner.value].point.Notified?)
  }

  ghost predicate WinnerNotified(s: State) {
    s.winner.Some? && s.winner.value in s.handlers && s.handlers[s.winner.value].point.Notified?
  }

  ghost predicate MainOk(s: State) {
    && (s.main.Waiting? ==> !WinnerNotified(s))
    && (s.main.Woken? ==> WinnerNotified(s))
    && (s.main.ShuttingDown? ==> WinnerUnlocked(s))
    && (s.main.Exited? && s.main.waited ==>
          && WinnerUnlocked(s)
          && s.main.code == CodeOf(s.handlers[s.winner.value].kind)
          && s.specFile == StatusOf(s.handlers[s.winner.value].kind).specName)
    && (!(s.main.Exited? && s.main.waited) ==> s.specFile == None)
  }

  ghost predicate Inv(s: State) {
    WinnerOk(s) && OwnerOk(s) && StatusOk(s) && MainOk(s)
  }

  lemma SwapKeeps(s: State, id: nat)
    requires Inv(s) && id in s.handlers && s.handlers[id].point.Entered?
    ensures Inv(AdvanceHandler(s, id).value)
  {
  }

  lemma WinnerKeeps(s: State, id: nat)
    requires Inv(s) && s.winner == Some(id) && AdvanceHandler(s, id).Some?
    ensures Inv(AdvanceHandler(s, id).value)
  {
    assert !s.handlers[id].point.Entered?;
  }

  lemma MainKeeps(s: State)
    requires Inv(s) && AdvanceMain(s).Some?
    ensures Inv(AdvanceMain(s).value)
  {
  }

  lemma NextKeeps(s: State, a: Action)
    requires Inv(s) && Next(s, a).Some?
    ensures Inv(Next(s, a).value)
  {
    if a.Advance? && s.handlers[a.id].point.Entered? {
      SwapKeeps(s, a.id);
    } else if a.Advance? {
      WinnerKeeps(s, a.id);
    } else if a.Main? {
      MainKeeps(s);
    }
  }

  lemma {:induction false} RunKeeps(canRestart: bool, schedule: seq<Action>)
    requires Run(Init(canRestart), schedule).Some?
    ensures Inv(Run(Init(canRestart), schedule).value)
  {
    if schedule != [] {
      RunKeeps(canRestart, schedule[..|schedule| - 1]);
      NextKeeps(Run(Init(canRestart), schedule[..|schedule| - 1]).value, schedule[|schedule| - 1]);
    }
  }

  /** In every interleaving the exit status is stored at most once, and only by the handler that won the swap. */
  lemma StoredOnce(canRestart: bool, schedule: seq<Action>)
    requires Run(Init(canRestart), schedule).Some?
    ensures var s := Run(Init(canRestart), schedule).value;
            && s.stores <= 1
            && (s.stores == 1 ==>
                  && s.winner.Some? && s.winner.value in s.handlers
                  && var kind := s.handlers[s.winner.value].kind;
                  && s.status.shouldExit
                  && (s.status.panicking <==> kind.Panic?)
                  && (s.status.shouldRestart <==> kind.RestartOn? || kind.Restart?)
                  && s.status.specName == if kind.RestartOn? then Some(kind.chain) else None)
            && (s.stores == 0 ==> s.status == ExitStatus(false, false, false, None))
  {
    RunKeeps(canRestart, schedule);
  }

  /**
   * Once main has waited and gone, some handler has won the swap. The code is 69 for a restart, 1 for a panic and 0 for
   * an interrupt, and the override file names the chain to restart on exactly if the winner asked for one.
   */
  lemma ExitCodeIsTheWinners(canRestart: bool, schedule: seq<Action>)
    requires Run(Init(canRestart), schedule).Some?
    requires var m := Run(Init(canRestart), schedule).value.main; m.Exited? && m.waited
    ensures var s := Run(Init(canRestart), schedule).value;
            && s.winner.Some? && s.winner.value in s.handlers
            && var kind := s.handlers[s.winner.value].kind;
            && (kind.RestartOn? || kind.Restart? ==> s.main.code == 69)
            && (kind.Panic? ==> s.main.code == 1)
            && (kind.Interrupt? ==> s.main.code == 0)
            && s.specFile == if kind.RestartOn? then Some(kind.chain) else None
  {
    RunKeeps(canRestart, schedule);
  }

  /** Without having waited, main exits with 0 after an instant command and with 1 after a failed start. */
  lemma ExitWithoutWaiting(canRestart: bool, schedule: seq<Action>, result: StartResult)
    requires Run(Init(canRestart), schedule).Some? && Run(Init(canRestart), schedule).value.main.Starting?
    requires !result.Running?
    ensures Run(Init(canRestart), schedule + [Start(result)]).Some?
    ensures var s := Run(Init(canRestart), schedule + [Start(result)]).value;
            s.main == Exited(if result.Instant? then 0 else 1, false) && s.specFile == None
  {
    RunKeeps(canRestart, schedule);
    assert (schedule + [Start(result)])[..|schedule|] == schedule;
  }

  /** A restart is asked for only where restarting is allowed, and a panic or an interrupt only once the client runs. */
  lemma {:induction false} HandlersAreInstalled(canRestart: bool, schedule: seq<Action>, id: nat)
    requires Run(Init(canRestart), schedule).Some? && id in Run(Init(canRestart), schedule).value.handlers
    ensures var s := Run(Init(canRestart), schedule).value;
            && s.canRestart == canRestart
            && (s.handlers[id].kind.RestartOn? || s.handlers[id].kind.Restart? ==> canRestart)
            && (s.handlers[id].kind.Panic? || s.handlers[id].kind.Interrupt? ==> !s.main.Starting?)
  {
    if schedule != [] {
      var before := schedule[..|schedule| - 1];
      CanRestartStays(canRestart, before);
      if id in Run(Init(canRestart), before).value.handlers {
        HandlersAreInstalled(canRestart, before, id);
      }
    }
  }

  lemma {:induction false} CanRestartStays(canRestart: bool, schedule: seq<Action>)
    requires Run(Init(canRestart), schedule).Some?
    ensures Run(Init(canRestart), schedule).value.canRestart == canRestart
  {
    if schedule != [] {
      CanRestartStays(canRestart, schedule[..|schedule| - 1]);
    }
  }

  /** While main shuts down with the lock held, no handler is at the point where it would wait for that lock. */
  lemma NobodyWaitsForShutdown(canRestart: bool, schedule: seq<Action>, id: nat)
    requires Run(Init(canRestart), schedule).Some?
    requires var s := Run(Init(canRestart), schedule).value; s.main.ShuttingDown? && id in s.handlers
    ensures var s := Run(Init(canRestart), schedule).value;
            && !s.handlers[id].point.Won?
            && (AdvanceHandler(s, id).None? ==> s.handlers[id].point.Lost? || s.handlers[id].point.Notified?)
  {
    RunKeeps(canRestart, schedule);
  }

  /**
   * No wakeup is lost and nothing deadlocks: as soon as a handler has won, and until main is gone, either that
   * handler or main can take its next action.
   */
  lemma WinnerOrMainCanMove(canRestart: bool, schedule: seq<Action>)
    requires Run(Init(canRestart), schedule).Some?
    requires var s := Run(Init(canRestart), schedule).value;
             s.winner.Some? && !s.main.Starting? && !s.main.Exited?
    ensures var s := Run(Init(canRestart), schedule).value;
            s.winner.value in s.handlers && (AdvanceHandler(s, s.winner.value).Some? || AdvanceMain(s).Some?)
  {
    RunKeeps(canRestart, schedule);
  }

  /** How many more actions main and the winner can take between them. */
  ghost function Remaining(s: State): nat {
    (match s.main
     case Starting => 6
     case ToLock => 5
     case Checking => 4
     case Waiting => 3
     case Woken => 2
     case ShuttingDown => 1
     case Exited(_, _) => 0)
    + (if s.winner.None? || s.winner.value !in s.handlers then 5 else
         match s.handlers[s.winner.value].point
         case Won => 4
         case Locked => 3
         case Stored => 2
         case Unlocked => 1
         case _ => 0)
  }

  predicate IsOurs(s: State, a: Action) {
    a.Main? || a.Start? || (a.Advance? && s.winner == Some(a.id))
  }

  lemma HandlerShrinks(s: State, id: nat)
    requires Inv(s) && id in s.handlers && AdvanceHandler(s, id).Some?
    ensures Remaining(AdvanceHandler(s, id).value) <= Remaining(s)
    ensures s.winner == Some(id) ==> Remaining(AdvanceHandler(s, id).value) < Remaining(s)
  {
    if s.winner != Some(id) {
      assert s.handlers[id].point.Entered?;
    }
  }

  lemma RemainingShrinks(s: State, a: Action)
    requires Inv(s) && Next(s, a).Some?
    ensures Remaining(Next(s, a).value) <= Remaining(s)
    ensures IsOurs(s, a) ==> Remaining(Next(s, a).value) < Remaining(s)
  {
    if a.Advance? {
      HandlerShrinks(s, a.id);
    }
  }

  ghost function CountOurs(s: State, schedule: seq<Action>): nat
    requires Run(s, schedule).Some?
  {
    if schedule == [] then 0
    else CountOurs(s, schedule[..|schedule| - 1])
         + if IsOurs(Run(s, schedule[..|schedule| - 1]).value, schedule[|schedule| - 1]) then 1 else 0
  }

  /**
   * Whatever else is scheduled in between, main and the winner take at most eleven actions in all. Together
   * with `WinnerOrMainCanMove`, every schedule that keeps giving them turns ends with main gone.
   */
  lemma {:induction false} BoundedActions(canRestart: bool, schedule: seq<Action>)
    requires Run(Init(canRestart), schedule).Some?
    ensures CountOurs(Init(canRestart), schedule) + Remaining(Run(Init(canRestart), schedule).value) <= 11
  {
    if schedule != [] {
      var before := schedule[..|schedule| - 1];
      BoundedActions(canRestart, before);
      RunKeeps(canRestart, before);
      RemainingShrinks(Run(Init(canRestart), before).value, schedule[|schedule| - 1]);
    }
  }
}
