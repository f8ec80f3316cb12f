/**
 * The two locks of the account provider, as an interleaving of any number of calls: a read-write lock around the
 * unlocked accounts and one around the cached secrets. Unlocking takes them in this order, signing in the other.
 * This module proves exactly when calls can deadlock.
 */
module AccountLocks {
  import opened Numerals

  type Account = nat

  /** The calls that take a lock; `given` tells whether a password comes with the call. */
  datatype Call =
    | Unlock(account: Account, permanent: bool)
    | Sign(account: Account, given: bool)
    | Draw(account: Account)
    | IsUnlocked
    | IsPermanent

  /**
   * Program points: before the first lock, holding the first, holding it and waiting for the second, holding both,
   * holding the first again, and returned. The first lock of a signature is that of the secrets, of every other
   * call that of the accounts.
   */
  datatype Point = Start | First | Waiting | Both | Last | Returned

  datatype Thread = Thread(call: Call, point: Point)

  /** `fair`: a reader also waits for writers that are waiting. */
  datatype Config = Config(keep: bool, fair: bool)

  datatype State = State(threads: map<nat, Thread>, permanent: set<Account>, cached: set<Account>)

  const EMPTY: State := State(map[], {}, {})

  datatype Action = Invoke(id: nat, call: Call) | Advance(id: nat, ok: bool)

  predicate HoldsFirst(t: Thread) {
    !t.point.Start? && !t.point.Returned?
  }

  predicate ReadsAccounts(t: Thread) {
    (t.call.IsUnlocked? || t.call.IsPermanent?) && HoldsFirst(t)
  }

  predicate WritesAccounts(t: Thread) {
    if t.call.Sign? then t.point.Both? else (t.call.Unlock? || t.call.Draw?) && HoldsFirst(t)
  }

  predicate ReadsSecrets(t: Thread) {
    if t.call.Sign? then HoldsFirst(t) else t.call.IsUnlocked? && t.point.Both?
  }

  predicate WritesSecrets(t: Thread) {
    t.call.Unlock? && t.point.Both?
  }

  predicate WantsToWriteAccounts(t: Thread) {
    ((t.call.Unlock? || t.call.Draw?) && t.point.Start?) || (t.call.Sign? && t.point.Waiting?)
  }

  predicate WantsToWriteSecrets(t: Thread) {
    t.call.Unlock? && t.point.Waiting?
  }

  // Whether a lock can be taken by thread `id`.

  ghost predicate MayWriteAccounts(s: State, id: nat) {
    forall j :: j in s.threads && j != id ==> !ReadsAccounts(s.threads[j]) && !WritesAccounts(s.threads[j])
  }

  ghost predicate MayReadAccounts(c: Config, s: State, id: nat) {
    forall j :: j in s.threads && j != id ==>
      !WritesAccounts(s.threads[j]) && (c.fair ==> !WantsToWriteAccounts(s.threads[j]))
  }

  ghost predicate MayWriteSecrets(s: State, id: nat) {
    forall j :: j in s.threads && j != id ==> !ReadsSecrets(s.threads[j]) && !WritesSecrets(s.threads[j])
  }

  ghost predicate MayReadSecrets(c: Config, s: State, id: nat) {
    forall j :: j in s.threads && j != id ==>
      !WritesSecrets(s.threads[j]) && (c.fair ==> !WantsToWriteSecrets(s.threads[j]))
  }

  ghost predicate MayStart(c: Config, s: State, id: nat)
    requires id in s.threads
  {
    match s.threads[id].call
    case Unlock(_, _) => MayWriteAccounts(s, id)
    case Sign(_, _) => MayReadSecrets(c, s, id)
    case Draw(_) => MayWriteAccounts(s, id)
    case IsUnlocked => MayReadAccounts(c, s, id)
    case IsPermanent => MayReadAccounts(c, s, id)
  }

  ghost predicate MayTakeSecond(c: Config, s: State, id: nat)
    requires id in s.threads
  {
    match s.threads[id].call
    case Unlock(_, _) => MayWriteSecrets(s, id)
    case Sign(_, _) => MayWriteAccounts(s, id)
    case Draw(_) => true
    case IsUnlocked => MayReadSecrets(c, s, id)
    case IsPermanent => true
  }

  /** Where a call goes from holding its first lock; `ok` is what the store answers about the password. */
  function AfterFirst(c: Config, s: State, call: Call, ok: bool): Point {
    match call
    case Unlock(a, permanent) => if a !in s.permanent && ok && c.keep && permanent then Waiting else Returned
    case Sign(a, given) => if a in s.cached || given then Returned else Waiting
    case Draw(_) => Returned
    case IsUnlocked => Waiting
    case IsPermanent => Returned
  }

  function MovedTo(s: State, id: nat, p: Point): State
    requires id in s.threads
  {
    s.(threads := s.threads[id := s.threads[id].(point := p)])
  }

  /** The next action of a call; nothing when it waits for a lock or has returned. */
  ghost function Step(c: Config, s: State, id: nat, ok: bool): Option<State>
    requires id in s.threads
  {
    var t := s.threads[id];
    match t.point
    case Start => if MayStart(c, s, id) then Some(MovedTo(s, id, First)) else None
    case First =>
      var p := AfterFirst(c, s, t.call, ok);
      var s' := MovedTo(s, id, p);
      if t.call.Unlock? && p.Returned? && ok && t.call.permanent
      then Some(s'.(permanent := s.permanent + {t.call.account}))
      else Some(s')
    case Waiting => if MayTakeSecond(c, s, id) then Some(MovedTo(s, id, Both)) else None
    case Both =>
      if t.call.Unlock? then Some(MovedTo(s, id, Last).(cached := s.cached + {t.call.account}))
      else Some(MovedTo(s, id, Last))
    case Last =>
      if t.call.Unlock? then Some(MovedTo(s, id, Returned).(permanent := s.permanent + {t.call.account}))
      else Some(MovedTo(s, id, Returned))
    case Returned => None
  }

  ghost function Next(c: Config, s: State, a: Action): Option<State> {
    match a
    case Invoke(id, call) =>
      if id in s.threads then None else Some(s.(threads := s.threads[id := Thread(call, Start)]))
    case Advance(id, ok) => if id in s.threads then Step(c, s, id, ok) else None
  }

  /** The state after a schedule, if every action was possible when its turn came. */
  ghost function Run(c: Config, s: State, schedule: seq<Action>): Option<State> {
    if schedule == [] then Some(s)
    else match Run(c, s, schedule[..|schedule| - 1])
      case None => None
      case Some(s') => Next(c, s', schedule[|schedule| - 1])
  }

  // What every schedule keeps.

  ghost predicate Compatible(t: Thread, u: Thread) {
    && (WritesAccounts(t) ==> !ReadsAccounts(u) && !WritesAccounts(u))
    && (WritesSecrets(t) ==> !ReadsSecrets(u) && !WritesSecrets(u))
  }

  /** A waiting or later point means a call that takes two locks; an unlock gets there only to keep a secret. */
  ghost predicate Sensible(c: Config, t: Thread) {
    t.point.Waiting? || t.point.Both? || t.point.Last? ==>
      match t.call
      case Unlock(_, permanent) => c.keep && permanent
      case Sign(_, given) => !given
      case Draw(_) => false
      case IsUnlocked => true
      case IsPermanent => false
  }

  ghost predicate Inv(c: Config, s: State) {
    && (forall i :: i in s.threads ==> Sensible(c, s.threads[i]))
    && (forall i, j :: i in s.threads && j in s.threads && i != j ==> Compatible(s.threads[i], s.threads[j]))
  }

  lemma MoveKeeps(c: Config, s: State, id: nat, p: Point)
    requires Inv(c, s) && id in s.threads
    requires var t := s.threads[id].(point := p);
             && Sensible(c, t)
             && forall j :: j in s.threads && j != id ==> Compatible(t, s.threads[j]) && Compatible(s.threads[j], t)
    ensures Inv(c, MovedTo(s, id, p))
  {
    hide Sensible, Compatible;
  }

  lemma StepKeeps(c: Config, s: State, id: nat, ok: bool)
    requires Inv(c, s) && id in s.threads && Step(c, s, id, ok).Some?
    ensures Inv(c, Step(c, s, id, ok).value)
  {
    var p := Step(c, s, id, ok).value.threads[id].point;
    var t := s.threads[id].(point := p);
    forall j | j in s.threads && j != id
      ensures Compatible(t, s.threads[j]) && Compatible(s.threads[j], t)
    {
      assert Compatible(s.threads[id], s.threads[j]) && Compatible(s.threads[j], s.threads[id]);
    }
    assert Sensible(c, s.threads[id]);
    MoveKeeps(c, s, id, p);
  }

  lemma NextKeeps(c: Config, s: State, a: Action)
    requires Inv(c, s) && Next(c, s, a).Some?
    ensures Inv(c, Next(c, s, a).value)
  {
    hide Step;
    if a.Advance? {
      StepKeeps(c, s, a.id, a.ok);
    }
  }

  lemma {:induction false} RunKeeps(c: Config, schedule: seq<Action>)
    requires Run(c, EMPTY, schedule).Some?
    ensures Inv(c, Run(c, EMPTY, schedule).value)
  {
    hide Next, Inv;
    if schedule != [] {
      RunKeeps(c, schedule[..|schedule| - 1]);
      NextKeeps(c, Run(c, EMPTY, schedule[..|schedule| - 1]).value, schedule[|schedule| - 1]);
    } else {
      EmptyKeeps(c);
    }
  }

  lemma EmptyKeeps(c: Config)
    ensures Inv(c, EMPTY)
  {
  }

  // The deadlock.

  /** A signature holds the secrets and waits for the accounts, an unlock holds these and waits for the secrets. */
  ghost predicate Locked(s: State, i: nat, j: nat) {
    && i in s.threads && s.threads[i].call.Sign? && s.threads[i].point.Waiting?
    && j in s.threads && s.threads[j].call.Unlock? && s.threads[j].point.Waiting?
  }

  ghost predicate Deadlocked(s: State) {
    exists i, j :: Locked(s, i, j)
  }

  lemma LockedStays(c: Config, s: State, i: nat, j: nat, a: Action)
    requires Locked(s, i, j) && Next(c, s, a).Some?
    ensures Locked(Next(c, s, a).value, i, j)
  {
    assert WritesAccounts(s.threads[j]) && ReadsSecrets(s.threads[i]);
    assert !MayWriteAccounts(s, i) && !MayWriteSecrets(s, j);
  }

  /** Two calls that have locked each other out never return, whatever is scheduled. */
  lemma {:induction false} LockedForever(c: Config, s: State, i: nat, j: nat, schedule: seq<Action>)
    requires Locked(s, i, j) && Run(c, s, schedule).Some?
    ensures Locked(Run(c, s, schedule).value, i, j)
  {
    hide Next, Locked;
    if schedule != [] {
      LockedForever(c, s, i, j, schedule[..|schedule| - 1]);
      LockedStays(c, Run(c, s, schedule[..|schedule| - 1]).value, i, j, schedule[|schedule| - 1]);
    }
  }

  ghost predicate CanMove(c: Config, s: State, id: nat) {
    id in s.threads && Step(c, s, id, true).Some?
  }

  ghost predicate Holding(t: Thread) {
    t.point.First? || t.point.Both? || t.point.Last?
  }

  lemma HoldingMoves(c: Config, s: State, id: nat)
    requires id in s.threads && Holding(s.threads[id])
    ensures CanMove(c, s, id)
  {
  }

  /** With nobody inside a lock, a waiting call can take its second one, unless there is a deadlock. */
  lemma WaitingMoves(c: Config, s: State, id: nat) returns (mover: nat)
    requires Inv(c, s) && !Deadlocked(s) && forall j :: j in s.threads ==> !Holding(s.threads[j])
    requires id in s.threads && s.threads[id].point.Waiting?
    ensures CanMove(c, s, mover)
  {
    assert Sensible(c, s.threads[id]);
    if j :| j in s.threads && s.threads[j].call.Unlock? && s.threads[j].point.Waiting? {
      mover := j;
      forall k | k in s.threads && k != j
        ensures !ReadsSecrets(s.threads[k]) && !WritesSecrets(s.threads[k])
      {
        assert !Locked(s, k, j) && Sensible(c, s.threads[k]);
      }
    } else if j :| j in s.threads && s.threads[j].call.IsUnlocked? && s.threads[j].point.Waiting? {
      mover := j;
    } else {
      mover := id;
      forall k | k in s.threads && k != id
        ensures !ReadsAccounts(s.threads[k]) && !WritesAccounts(s.threads[k])
      {
        assert Sensible(c, s.threads[k]);
      }
    }
  }

  lemma StartMoves(c: Config, s: State, id: nat) returns (mover: nat)
    requires forall j :: j in s.threads ==> s.threads[j].point.Start? || s.threads[j].point.Returned?
    requires id in s.threads && s.threads[id].point.Start?
    ensures CanMove(c, s, mover)
  {
    if j :| j in s.threads && s.threads[j].point.Start? && (s.threads[j].call.Unlock? || s.threads[j].call.Draw?) {
      mover := j;
      assert MayWriteAccounts(s, j);
    } else {
      mover := id;
      assert MayReadAccounts(c, s, id) && MayReadSecrets(c, s, id);
    }
  }

  /** Short of a deadlock, whenever a call has not returned, some call can go on. */
  lemma SomeoneMoves(c: Config, schedule: seq<Action>, id: nat) returns (mover: nat)
    requires Run(c, EMPTY, schedule).Some?
    requires var s := Run(c, EMPTY, schedule).value;
             !Deadlocked(s) && id in s.threads && !s.threads[id].point.Returned?
    ensures CanMove(c, Run(c, EMPTY, schedule).value, mover)
  {
    hide Step, Inv, Deadlocked;
    var s := Run(c, EMPTY, schedule).value;
    RunKeeps(c, schedule);
    if j :| j in s.threads && Holding(s.threads[j]) {
      mover := j;
      HoldingMoves(c, s, j);
    } else if j :| j in s.threads && s.threads[j].point.Waiting? {
      mover := WaitingMoves(c, s, j);
    } else {
      mover := StartMoves(c, s, id);
    }
  }

  // Exactly when it happens.

  ghost predicate From(calls: iset<Call>, schedule: seq<Action>) {
    forall k :: 0 <= k < |schedule| && schedule[k].Invoke? ==> schedule[k].call in calls
  }

  lemma {:induction false} CallsFrom(c: Config, calls: iset<Call>, schedule: seq<Action>)
    requires From(calls, schedule) && Run(c, EMPTY, schedule).Some?
    ensures var s := Run(c, EMPTY, schedule).value; forall i :: i in s.threads ==> s.threads[i].call in calls
  {
    if schedule != [] {
      CallsFrom(c, calls, schedule[..|schedule| - 1]);
    }
  }

  /** Secrets are kept, some call unlocks permanently, and some call signs without a password. */
  ghost predicate Risky(c: Config, calls: iset<Call>) {
    && c.keep
    && (exists a :: Unlock(a, true) in calls)
    && (exists b :: Sign(b, false) in calls)
  }

  lemma DeadlockIsRisky(c: Config, calls: iset<Call>, schedule: seq<Action>)
    requires From(calls, schedule) && Run(c, EMPTY, schedule).Some?
    requires Deadlocked(Run(c, EMPTY, schedule).value)
    ensures Risky(c, calls)
  {
    hide Run;
    var s := Run(c, EMPTY, schedule).value;
    RunKeeps(c, schedule);
    CallsFrom(c, calls, schedule);
    var i, j :| Locked(s, i, j);
    assert Sensible(c, s.threads[i]) && Sensible(c, s.threads[j]);
    assert Sign(s.threads[i].call.account, false) in calls;
    assert Unlock(s.threads[j].call.account, true) in calls;
  }

  function Collision(a: Account, b: Account): seq<Action> {
    [Invoke(0, Sign(b, false)), Advance(0, true), Advance(0, true),
     Invoke(1, Unlock(a, true)), Advance(1, true), Advance(1, true)]
  }

  lemma {:induction false} RunSplit(c: Config, s: State, first: seq<Action>, a: Action)
    requires Run(c, s, first).Some?
    ensures Run(c, s, first + [a]) == Next(c, Run(c, s, first).value, a)
  {
    assert (first + [a])[..|first|] == first;
  }

  lemma CollisionDeadlocks(c: Config, a: Account, b: Account)
    requires c.keep
    ensures Run(c, EMPTY, Collision(a, b)).Some? && Deadlocked(Run(c, EMPTY, Collision(a, b)).value)
  {
    var all := Collision(a, b);
    var s1 := EMPTY.(threads := EMPTY.threads[0 := Thread(Sign(b, false), Start)]);
    var s2, s3 := MovedTo(s1, 0, First), MovedTo(MovedTo(s1, 0, First), 0, Waiting);
    var s4 := s3.(threads := s3.threads[1 := Thread(Unlock(a, true), Start)]);
    var s5, s6 := MovedTo(s4, 1, First), MovedTo(MovedTo(s4, 1, First), 1, Waiting);
    assert Next(c, EMPTY, all[0]) == Some(s1);
    assert Next(c, s1, all[1]) == Some(s2);
    assert Next(c, s2, all[2]) == Some(s3);
    assert Next(c, s3, all[3]) == Some(s4);
    assert Next(c, s4, all[4]) == Some(s5);
    assert Next(c, s5, all[5]) == Some(s6);
    hide Next;
    assert all[..6] == all && all[..0] == [];
    RunSixth(c, all, s1, s2, s3, s4, s5, s6);
    assert Locked(s6, 0, 1);
  }

  lemma RunSixth(c: Config, all: seq<Action>, s1: State, s2: State, s3: State, s4: State, s5: State, s6: State)
    requires |all| == 6
    requires Next(c, EMPTY, all[0]) == Some(s1) && Next(c, s1, all[1]) == Some(s2) && Next(c, s2, all[2]) == Some(s3)
    requires Next(c, s3, all[3]) == Some(s4) && Next(c, s4, all[4]) == Some(s5) && Next(c, s5, all[5]) == Some(s6)
    ensures Run(c, EMPTY, all) == Some(s6)
  {
    hide Next;
    RunSplit(c, EMPTY, [], all[0]);
    assert all[..1] == [] + [all[0]] && all[..2] == all[..1] + [all[1]] && all[..3] == all[..2] + [all[2]];
    RunSplit(c, EMPTY, all[..1], all[1]);
    RunSplit(c, EMPTY, all[..2], all[2]);
    assert all[..4] == all[..3] + [all[3]] && all[..5] == all[..4] + [all[4]] && all == all[..5] + [all[5]];
    RunSplit(c, EMPTY, all[..3], all[3]);
    RunSplit(c, EMPTY, all[..4], all[4]);
    RunSplit(c, EMPTY, all[..5], all[5]);
  }

  /**
   * Calls from a set can deadlock if and only if secrets are kept and the set has both a permanent unlock and a
   * signature without a password.
   */
  lemma DeadlockIff(c: Config, calls: iset<Call>)
    ensures (exists schedule :: From(calls, schedule) && Run(c, EMPTY, schedule).Some?
                                && Deadlocked(Run(c, EMPTY, schedule).value))
            <==> Risky(c, calls)
  {
    hide Run, Deadlocked;
    if schedule :| From(calls, schedule) && Run(c, EMPTY, schedule).Some? && Deadlocked(Run(c, EMPTY, schedule).value) {
      DeadlockIsRisky(c, calls, schedule);
    }
    if Risky(c, calls) {
      var a :| Unlock(a, true) in calls;
      var b :| Sign(b, false) in calls;
      CollisionDeadlocks(c, a, b);
      assert From(calls, Collision(a, b));
    }
  }

  // The path of each kind of call through its locks.

  /**
   * With its first lock: an unlock goes on to the secrets iff they are kept, it is permanent, the account is not yet,
   * and the store agrees; a signature goes on to the accounts iff no secret is cached and no password given; asking
   * whether an account is unlocked always takes both, and the other calls never do.
   */
  lemma AfterFirstIs(c: Config, s: State, id: nat, ok: bool)
    requires id in s.threads && s.threads[id].point.First?
    ensures Step(c, s, id, ok).Some?
    ensures var call := s.threads[id].call;
            var goesOn := match call
              case Unlock(a, permanent) => c.keep && permanent && a !in s.permanent && ok
              case Sign(a, given) => a !in s.cached && !given
              case Draw(_) => false
              case IsUnlocked => true
              case IsPermanent => false;
            var s' := Step(c, s, id, ok).value;
            && s'.threads == s.threads[id := Thread(call, if goesOn then Waiting else Returned)]
            && s'.cached == s.cached
            && s'.permanent == s.permanent
                               + if call.Unlock? && call.permanent && !goesOn && ok then {call.account} else {}
  {
  }

  ghost predicate Inside(t: Thread) {
    t.point.First? || t.point.Waiting? || t.point.Both? || t.point.Last?
  }

  /** The call is using the accounts. */
  ghost predicate AtAccounts(t: Thread) {
    if t.call.Sign? then t.point.Both? else Inside(t)
  }

  /** The call keeps readers of the accounts out: it may change them or, under fair locks, is waiting to. */
  ghost predicate BarsAccounts(c: Config, t: Thread) {
    match t.call
    case Unlock(_, _) => Inside(t) || (c.fair && t.point.Start?)
    case Draw(_) => Inside(t) || (c.fair && t.point.Start?)
    case Sign(_, _) => t.point.Both? || (c.fair && t.point.Waiting?)
    case IsUnlocked => false
    case IsPermanent => false
  }

  /** The same for the secrets, which only an unlock changes. */
  ghost predicate BarsSecrets(c: Config, t: Thread) {
    t.call.Unlock? && (t.point.Both? || (c.fair && t.point.Waiting?))
  }

  /** The second call keeps the first from its next lock. */
  ghost predicate Hinders(c: Config, t: Thread, u: Thread) {
    match t.call
    case Unlock(_, _) =>
      if t.point.Start? then AtAccounts(u)
      else if u.call.Sign? then Inside(u) else !u.call.Draw? && !u.call.IsPermanent? && u.point.Both?
    case Sign(_, _) => if t.point.Start? then BarsSecrets(c, u) else AtAccounts(u)
    case Draw(_) => AtAccounts(u)
    case IsUnlocked => if t.point.Start? then BarsAccounts(c, u) else BarsSecrets(c, u)
    case IsPermanent => BarsAccounts(c, u)
  }

  /** A call before its first lock, or one waiting for its second, goes on iff no other call hinders it. */
  lemma BlockedIff(c: Config, s: State, id: nat, t: Thread, ok: bool)
    requires id in s.threads && s.threads[id] == t
    requires t.point.Start? || (t.point.Waiting? && !t.call.Draw? && !t.call.IsPermanent?)
    ensures Step(c, s, id, ok).None? <==> exists j :: j in s.threads && j != id && Hinders(c, t, s.threads[j])
    ensures Step(c, s, id, ok).Some? ==>
              Step(c, s, id, ok).value ==
              s.(threads := s.threads[id := Thread(t.call, if t.point.Start? then First else Both)])
  {
  }

  /** A call that has taken its second lock gives it back before the first; an unlock caches before it records. */
  lemma AfterSecondIs(c: Config, s: State, id: nat, ok: bool)
    requires id in s.threads && (s.threads[id].point.Both? || s.threads[id].point.Last?)
    ensures Step(c, s, id, ok).Some?
    ensures var call, both := s.threads[id].call, s.threads[id].point.Both?;
            var s', account := Step(c, s, id, ok).value, if call.Unlock? then {call.account} else {};
            && s'.threads == s.threads[id := Thread(call, if both then Last else Returned)]
            && s'.cached == s.cached + (if both then account else {})
            && s'.permanent == s.permanent + (if both then {} else account)
  {
  }
}
