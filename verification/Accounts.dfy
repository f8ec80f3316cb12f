/** Unlocked accounts: one-time, timed and permanent unlocks, and the secrets kept for the permanent ones. */
module Accounts {
  import opened Numerals

  type Account = nat
  type Password = string
  type Secret = nat

  datatype Unlock = OneTime | Perm | Timed(end: real)

  datatype AccountData = AccountData(unlock: Unlock, password: Password)

  datatype State = State(
    unlocked: map<Account, AccountData>,
    secrets: map<Account, Secret>,
    // history: one-time unlocks granted to each account, and passwords drawn from them
    granted: map<Account, nat>,
    drawn: map<Account, nat>)

  const EMPTY: State := State(map[], map[], map[], map[])

  function Count(m: map<Account, nat>, a: Account): nat {
    if a in m then m[a] else 0
  }

  predicate IsPerm(s: State, a: Account) {
    a in s.unlocked && s.unlocked[a].unlock.Perm?
  }

  /**
   * `unlock_account` for an account the store knows; `secret` and `signs` are what the store answers when asked
   * for the raw secret or to sign a dummy message. The result tells whether the call succeeded.
   */
  function UnlockStep(keep: bool, s: State, a: Account, password: Password, unlock: Unlock,
                      secret: Option<Secret>, signs: bool): (State, bool) {
    var granted := if unlock.OneTime? then s.granted[a := Count(s.granted, a) + 1] else s.granted;
    if IsPerm(s, a) then (s.(granted := granted), true)
    else if (if keep && unlock.Perm? then secret.None? else !signs) then (s, false)
    else
      (s.(unlocked := s.unlocked[a := AccountData(unlock, password)],
          secrets := if keep && unlock.Perm? then s.secrets[a := secret.value] else s.secrets,
          granted := granted),
       true)
  }

  /** `password`: a one-time unlock is used up, an expired one is dropped and refused. */
  function PasswordStep(s: State, a: Account, now: real): (State, Option<Password>) {
    if a !in s.unlocked then (s, None)
    else
      var data := s.unlocked[a];
      match data.unlock
      case Perm => (s, Some(data.password))
      case OneTime =>
        (s.(unlocked := s.unlocked - {a}, drawn := s.drawn[a := Count(s.drawn, a) + 1]), Some(data.password))
      case Timed(end) =>
        if now > end then (s.(unlocked := s.unlocked - {a}), None) else (s, Some(data.password))
  }

  /** What an operation is done with: the cached secret, a password, or nothing because the account is locked. */
  datatype Key = WithSecret(secret: Secret) | WithPassword(password: Password) | Locked

  /** `sign` up to the call into the store. Other uses of an account do not look at the cached secrets. */
  function UseStep(s: State, a: Account, given: Option<Password>, now: real, signing: bool): (State, Key) {
    if signing && a in s.secrets then (s, WithSecret(s.secrets[a]))
    else if given.Some? then (s, WithPassword(given.value))
    else
      var (s', p) := PasswordStep(s, a, now);
      (s', if p.Some? then WithPassword(p.value) else Locked)
  }

  datatype Op =
    | DoUnlock(account: Option<Account>, password: Password, unlock: Unlock, secret: Option<Secret>, signs: bool)
    | DoUse(account: Option<Account>, given: Option<Password>, now: real, signing: bool)

  /** One call; an address the store does not know changes nothing. */
  function Apply(keep: bool, s: State, op: Op): State {
    if op.account.None? then s
    else match op
      case DoUnlock(a, password, unlock, secret, signs) =>
        UnlockStep(keep, s, a.value, password, unlock, secret, signs).0
      case DoUse(a, given, now, signing) => UseStep(s, a.value, given, now, signing).0
  }

  function Run(keep: bool, s: State, ops: seq<Op>): State {
    if ops == [] then s else Apply(keep, Run(keep, s, ops[..|ops| - 1]), ops[|ops| - 1])
  }

  /**
   * For one account: its secret is cached exactly if secrets are kept and it is unlocked permanently, and each
   * one-time unlock gives at most one password, counting the one still to be drawn.
   */
  ghost predicate InvAt(keep: bool, s: State, a: Account) {
    && (a in s.secrets <==> keep && IsPerm(s, a))
    && Count(s.drawn, a) + (if a in s.unlocked && s.unlocked[a].unlock.OneTime? then 1 else 0) <= Count(s.granted, a)
  }

  ghost predicate Inv(keep: bool, s: State) {
    forall a: Account :: InvAt(keep, s, a)
  }

  ghost predicate StaysAt(s: State, s': State, a: Account) {
    IsPerm(s, a) ==> IsPerm(s', a) && s'.unlocked[a] == s.unlocked[a]
  }

  lemma UnlockKeepsAt(keep: bool, s: State, op: Op, b: Account)
    requires InvAt(keep, s, b) && op.DoUnlock?
    ensures InvAt(keep, Apply(keep, s, op), b) && StaysAt(s, Apply(keep, s, op), b)
  {
    if op.account.Some? {
      var s' := UnlockStep(keep, s, op.account.value, op.password, op.unlock, op.secret, op.signs).0;
      assert op.account.value != b ==>
               (b in s'.unlocked <==> b in s.unlocked) && (b in s'.secrets <==> b in s.secrets);
    }
  }

  lemma UseKeepsAt(keep: bool, s: State, op: Op, b: Account)
    requires InvAt(keep, s, b) && op.DoUse?
    ensures InvAt(keep, Apply(keep, s, op), b) && StaysAt(s, Apply(keep, s, op), b)
  {
  }

  lemma ApplyKeeps(keep: bool, s: State, op: Op)
    requires Inv(keep, s)
    ensures Inv(keep, Apply(keep, s, op))
    ensures forall a :: StaysAt(s, Apply(keep, s, op), a)
  {
    var s' := Apply(keep, s, op);
    forall a: Account
      ensures InvAt(keep, s', a) && StaysAt(s, s', a)
    {
      if op.DoUnlock? {
        UnlockKeepsAt(keep, s, op, a);
      } else {
        UseKeepsAt(keep, s, op, a);
      }
    }
  }

  /**
   * Over every run: the cached secrets are those of the permanently unlocked accounts (none if they are not
   * kept), and passwords drawn from one-time unlocks never outnumber the one-time unlocks granted.
   */
  lemma RunFacts(keep: bool, ops: seq<Op>, a: Account)
    ensures var s := Run(keep, EMPTY, ops);
            && (a in s.secrets <==> keep && IsPerm(s, a))
            && Count(s.drawn, a) <= Count(s.granted, a)
  {
    RunKeeps(keep, ops);
    assert InvAt(keep, Run(keep, EMPTY, ops), a);
  }

  lemma {:induction false} RunKeeps(keep: bool, ops: seq<Op>)
    ensures Inv(keep, Run(keep, EMPTY, ops))
  {
    if ops != [] {
      RunKeeps(keep, ops[..|ops| - 1]);
      ApplyKeeps(keep, Run(keep, EMPTY, ops[..|ops| - 1]), ops[|ops| - 1]);
    }
  }

  /** A permanent unlock is never revoked, and keeps the password it was made with. */
  lemma {:induction false} PermanentStays(keep: bool, before: seq<Op>, after: seq<Op>, a: Account)
    requires IsPerm(Run(keep, EMPTY, before), a)
    ensures IsPerm(Run(keep, EMPTY, before + after), a)
    ensures Run(keep, EMPTY, before + after).unlocked[a] == Run(keep, EMPTY, before).unlocked[a]
  {
    if after == [] {
      assert before + after == before;
    } else {
      var all := before + after;
      assert all[..|all| - 1] == before + after[..|after| - 1];
      PermanentStays(keep, before, after[..|after| - 1], a);
      var s, op := Run(keep, EMPTY, all[..|all| - 1]), all[|all| - 1];
      RunKeeps(keep, all[..|all| - 1]);
      ApplyKeeps(keep, s, op);
      assert StaysAt(s, Apply(keep, s, op), a);
    }
  }

  /** A timed unlock that has expired never opens the account: the use fails and the account is locked afterwards. */
  lemma ExpiredNeverOpens(keep: bool, ops: seq<Op>, a: Account, now: real, signing: bool)
    requires var s := Run(keep, EMPTY, ops);
             a in s.unlocked && s.unlocked[a].unlock.Timed? && now > s.unlocked[a].unlock.end
    ensures var (s', key) := UseStep(Run(keep, EMPTY, ops), a, None, now, signing); key.Locked? && a !in s'.unlocked
  {
    RunFacts(keep, ops, a);
  }

  /** An unlock that the store does not confirm, of an account that is not open for good, fails and changes nothing. */
  lemma RefusedUnlock(keep: bool, s: State, a: Account, password: Password, unlock: Unlock,
                      secret: Option<Secret>, signs: bool)
    requires !(a in s.unlocked && s.unlocked[a].unlock.Perm?)
    requires if keep && unlock.Perm? then secret.None? else !signs
    ensures UnlockStep(keep, s, a, password, unlock, secret, signs) == (s, false)
  {
  }

  /** One that it confirms records kind and password, and the secret where permanent ones are kept. */
  lemma ConfirmedUnlock(keep: bool, s: State, a: Account, password: Password, unlock: Unlock,
                        secret: Option<Secret>, signs: bool)
    requires !(a in s.unlocked && s.unlocked[a].unlock.Perm?)
    requires if keep && unlock.Perm? then secret.Some? else signs
    ensures var (s', ok) := UnlockStep(keep, s, a, password, unlock, secret, signs);
            && ok && s'.unlocked == s.unlocked[a := AccountData(unlock, password)]
            && s'.secrets == if keep && unlock.Perm? then s.secrets[a := secret.value] else s.secrets
  {
  }

  /** An account that is open for good stays as it is, and asking again succeeds whatever the store would say. */
  lemma RepeatedUnlock(keep: bool, s: State, a: Account, password: Password, unlock: Unlock,
                       secret: Option<Secret>, signs: bool)
    requires a in s.unlocked && s.unlocked[a].unlock.Perm?
    ensures var (s', ok) := UnlockStep(keep, s, a, password, unlock, secret, signs);
            ok && s'.unlocked == s.unlocked && s'.secrets == s.secrets
  {
  }

  /** Drawing a password: permanent unlocks always give theirs, one-time ones once, timed ones until their end. */
  lemma DrawnPassword(s: State, a: Account, now: real)
    requires a in s.unlocked
    ensures var (s', p), data := PasswordStep(s, a, now), s.unlocked[a];
            && (data.unlock.Perm? ==> p == Some(data.password) && s' == s)
            && (data.unlock.OneTime? ==> p == Some(data.password) && s'.unlocked == s.unlocked - {a})
            && (data.unlock.Timed? && now <= data.unlock.end ==> p == Some(data.password) && s' == s)
            && (data.unlock.Timed? && now > data.unlock.end ==> p == None && s'.unlocked == s.unlocked - {a})
            && s'.secrets == s.secrets
  {
  }

  /** A signature takes a cached secret first, no other use does; then comes the password given, then a drawn one. */
  lemma UseOrder(s: State, a: Account, given: Option<Password>, now: real, signing: bool)
    ensures signing && a in s.secrets ==> UseStep(s, a, given, now, signing) == (s, WithSecret(s.secrets[a]))
    ensures !(signing && a in s.secrets) && given.Some? ==>
              UseStep(s, a, given, now, signing) == (s, WithPassword(given.value))
    ensures !(signing && a in s.secrets) && given.None? ==>
              var (s', p) := PasswordStep(s, a, now);
              UseStep(s, a, given, now, signing) == (s', if p.Some? then WithPassword(p.value) else Locked)
    ensures a !in s.unlocked ==> PasswordStep(s, a, now) == (s, None)
  {
  }

  /** The call unlocks the account and the store has confirmed it, while the account was not open for good. */
  ghost predicate Confirmed(keep: bool, s: State, op: Op, a: Account) {
    && op.DoUnlock? && op.account == Some(a)
    && !(a in s.unlocked && s.unlocked[a].unlock.Perm?)
    && if keep && op.unlock.Perm? then op.secret.Some? else op.signs
  }

  /** Call `k` is the last confirmed unlock of an account. */
  ghost predicate LastConfirmed(keep: bool, ops: seq<Op>, a: Account, k: nat) {
    && k < |ops| && Confirmed(keep, Run(keep, EMPTY, ops[..k]), ops[k], a)
    && forall j :: k < j < |ops| ==> !Confirmed(keep, Run(keep, EMPTY, ops[..j]), ops[j], a)
  }

  lemma UnconfirmedKeeps(keep: bool, s: State, op: Op, a: Account)
    requires !Confirmed(keep, s, op, a)
    ensures a in Apply(keep, s, op).unlocked ==> a in s.unlocked && Apply(keep, s, op).unlocked[a] == s.unlocked[a]
    ensures a in Apply(keep, s, op).secrets ==> a in s.secrets && Apply(keep, s, op).secrets[a] == s.secrets[a]
  {
  }

  lemma LastStays(keep: bool, ops: seq<Op>, op: Op, a: Account, k: nat)
    requires LastConfirmed(keep, ops, a, k) && !Confirmed(keep, Run(keep, EMPTY, ops), op, a)
    ensures LastConfirmed(keep, ops + [op], a, k)
  {
    hide Confirmed;
    var all := ops + [op];
    assert all[..k] == ops[..k] && all[k] == ops[k] && all[..|ops|] == ops;
    forall j | k < j < |all|
      ensures !Confirmed(keep, Run(keep, EMPTY, all[..j]), all[j], a)
    {
      if j < |ops| {
        assert all[..j] == ops[..j] && all[j] == ops[j];
      }
    }
  }

  /**
   * Over every run: an unlocked account carries the kind and the password of the last unlock of it that the store
   * confirmed, and a cached secret is the one that the store gave then.
   */
  lemma {:induction false} EntriesAreConfirmed(keep: bool, ops: seq<Op>, a: Account) returns (k: nat)
    requires a in Run(keep, EMPTY, ops).unlocked
    ensures var s := Run(keep, EMPTY, ops);
            && LastConfirmed(keep, ops, a, k)
            && s.unlocked[a] == AccountData(ops[k].unlock, ops[k].password)
            && (a in s.secrets ==> ops[k].secret == Some(s.secrets[a]))
  {
    var n := |ops| - 1;
    var before, op, s := ops[..n], ops[n], Run(keep, EMPTY, ops[..n]);
    if Confirmed(keep, s, op, a) {
      k := n;
      RunFacts(keep, before, a);
      ConfirmedUnlock(keep, s, a, op.password, op.unlock, op.secret, op.signs);
    } else {
      UnconfirmedKeeps(keep, s, op, a);
      k := EntriesAreConfirmed(keep, before, a);
      LastStays(keep, before, op, a, k);
      assert before + [op] == ops;
    }
  }

  class AccountProvider {
    const keep: bool
    var unlocked: map<Account, AccountData>
    var secrets: map<Account, Secret>
    ghost var granted: map<Account, nat>
    ghost var drawn: map<Account, nat>

    ghost function View(): State
      reads this
    {
      State(unlocked, secrets, granted, drawn)
    }

    constructor (keep: bool)
      ensures this.keep == keep && View() == EMPTY && Inv(keep, View())
    {
      this.keep := keep;
      unlocked, secrets, granted, drawn := map[], map[], map[], map[];
    }

    method UnlockAccount(account: Option<Account>, password: Password, unlock: Unlock,
                         secret: Option<Secret>, signs: bool)
      returns (ok: bool)
      modifies this
      ensures View() == Apply(keep, old(View()), DoUnlock(account, password, unlock, secret, signs))
      ensures account.Some? ==> ok == UnlockStep(keep, old(View()), account.value, password, unlock, secret, signs).1
      ensures account.None? ==> !ok
      // a call that the store refuses changes nothing and fails, unless the account is open for good
      ensures account.Some? && !IsPerm(old(View()), account.value) ==>
                (if keep && unlock.Perm? then secret.None? else !signs) ==> !ok && View() == old(View())
    {
      if account.None? {
        return false;
      }
      var a := account.value;
      if a !in unlocked || !unlocked[a].unlock.Perm? {
        if keep && unlock.Perm? {
          if secret.None? {
            return false;
          }
          secrets := secrets[a := secret.value];
        } else if !signs {
          return false;
        }
        unlocked := unlocked[a := AccountData(unlock, password)];
      }
      granted := if unlock.OneTime? then granted[a := Count(granted, a) + 1] else granted;
      return true;
    }

    method PasswordOf(a: Account, now: real) returns (p: Option<Password>)
      modifies this
      ensures (View(), p) == PasswordStep(old(View()), a, now)
    {
      if a !in unlocked {
        return None;
      }
      var data := unlocked[a];
      if data.unlock.OneTime? {
        unlocked := unlocked - {a};
        drawn := drawn[a := Count(drawn, a) + 1];
      }
      if data.unlock.Timed? {
        if now > data.unlock.end {
          unlocked := unlocked - {a};
          return None;
        }
      }
      return Some(data.password);
    }

    method Use(account: Option<Account>, given: Option<Password>, now: real, signing: bool) returns (key: Option<Key>)
      modifies this
      ensures View() == Apply(keep, old(View()), DoUse(account, given, now, signing))
      ensures key == if account.Some? then Some(UseStep(old(View()), account.value, given, now, signing).1) else None
    {
      if account.None? {
        return None;
      }
      if signing && account.value in secrets {
        return Some(WithSecret(secrets[account.value]));
      }
      var password := given;
      if given.None? {
        password := PasswordOf(account.value, now);
        if password.None? {
          return Some(Locked);
        }
      }
      return Some(WithPassword(password.value));
    }

    /** Any calls, one after the other: the object runs as the model does, and keeps what its runs keep. */
    method Drive(ops: seq<Op>)
      modifies this
      ensures View() == Run(keep, old(View()), ops)
      ensures old(Inv(keep, View())) ==> Inv(keep, View())
    {
      hide Inv, Apply;
      assert ops[..0] == [];
      for i := 0 to |ops|
        invariant View() == Run(keep, old(View()), ops[..i])
        invariant old(Inv(keep, View())) ==> Inv(keep, View())
      {
        var op := ops[i];
        assert ops[..i + 1][..i] == ops[..i];
        if Inv(keep, View()) {
          ApplyKeeps(keep, View(), op);
        }
        match op {
          case DoUnlock(account, password, unlock, secret, signs) =>
            var _ := UnlockAccount(account, password, unlock, secret, signs);
          case DoUse(account, given, now, signing) =>
            var _ := Use(account, given, now, signing);
        }
      }
      assert ops[..|ops|] == ops;
    }

    /** Because secrets are only cached for permanent unlocks, looking in both maps is looking in the first. */
    method IsUnlocked(account: Option<Account>) returns (r: bool)
      requires Inv(keep, View())
      ensures r <==> account.Some? && account.value in unlocked
    {
      assert account.Some? ==> InvAt(keep, View(), account.value);
      r := account.Some? && (account.value in unlocked || account.value in secrets);
    }

    method IsUnlockedPermanently(account: Option<Account>) returns (r: bool)
      requires Inv(keep, View())
      ensures r <==> account.Some? && IsPerm(View(), account.value)
      ensures keep ==> (r <==> account.Some? && account.value in secrets)
    {
      assert account.Some? ==> InvAt(keep, View(), account.value);
      r := account.Some? && account.value in unlocked && unlocked[account.value].unlock.Perm?;
    }
  }
}
