/** What each successful vault call does to the stored values and to the timers. */
module VaultEffects {
  import opened Machine
  import opened Ttl
  import opened Storage
  import opened Vault

  function Held(s: VaultStore, user: Address): int {
    OrZero(s.Read(Persistent, Balance(user)))
  }

  function Pending(s: VaultStore, user: Address): int {
    OrZero(s.Read(Persistent, Grant(user)))
  }

  /** The sum that goes into a balance: as it is, or short of 2^128 when it wraps. */
  function Wrapped(balance: int, amount: int): int {
    if Overflows(balance, amount) then balance + amount - TWO_128 else balance + amount
  }

  /** The stored values after a successful call. */
  function DataAfter(s: VaultStore, call: Call): map<(Lifecycle, StorageKey), int> {
    match call
    case DoDeposit(user, amount) => s.data[(Persistent, Balance(user)) := Wrapped(Held(s, user), amount)]
    case DoWithdraw(user, amount) => s.data[(Persistent, Balance(user)) := Held(s, user) - amount]
    case DoGrant(user, amount) => s.data[(Persistent, Grant(user)) := amount]
    case DoClaim(user) =>
      (s.data - {(Persistent, Grant(user))})[(Persistent, Balance(user)) := Wrapped(Held(s, user), Pending(s, user))]
    case DoConsumeNonce(user, nonce) => s.data[(Temporary, Nonce(user)) := nonce]
    case _ => s.data
  }

  /** The timers a call may move. */
  function Timers(call: Call): set<Timer<StorageKey>> {
    match call
    case DoDeposit(user, _) => {Own(Persistent, Balance(user))}
    case DoWithdraw(user, _) => {Own(Persistent, Balance(user))}
    case DoBalance(user) => {Own(Persistent, Balance(user))}
    case DoAdmin => {Shared}
    case DoGrant(user, _) => {Shared, Own(Persistent, Grant(user))}
    case DoHasGrant(_) => {}
    case DoClaim(user) => {Own(Persistent, Grant(user)), Own(Persistent, Balance(user))}
    case DoConsumeNonce(user, _) => {Own(Temporary, Nonce(user))}
  }

  ghost predicate OnlyMoves(s: VaultStore, s': VaultStore, timers: set<Timer<StorageKey>>) {
    && s'.clock == s.clock && s'.minTemp == s.minTemp
    && forall t :: t !in timers ==> (t in s.until <==> t in s'.until) && (t in s.until ==> s'.until[t] == s.until[t])
  }

  /** What a storage operation on one slot does beyond its own timer. */
  lemma GetEffect(s: VaultStore, lc: Lifecycle, k: StorageKey, policy: TtlPolicy)
    requires s.Valid() && s.Get(lc, k, policy, true).Ok?
    ensures
      var (value, s') := s.Get(lc, k, policy, true).value;
      && value == s.Read(lc, k) && s'.data == s.data && s'.Valid()
      && OnlyMoves(s, s', {TimerOf(lc, k)})
      && (TimerOf(lc, k) in s.until <==> TimerOf(lc, k) in s'.until)
  {
    if TimerOf(lc, k) in s.until {
      RaiseKeepsValid(s, lc, k, policy.ClampedFor(lc).threshold, policy.ClampedFor(lc).extendTo);
    }
  }

  lemma SetEffect(s: VaultStore, lc: Lifecycle, k: StorageKey, v: int, policy: TtlPolicy)
    requires s.Valid() && !s.IsArchived(lc, k) && policy.Reaches(lc)
    ensures s.Set(lc, k, v, policy, true).Ok?
    ensures
      var s' := s.Set(lc, k, v, policy, true).value;
      && s'.data == s.data[(lc, k) := v] && s'.Valid()
      && OnlyMoves(s, s', {TimerOf(lc, k)})
      && TimerOf(lc, k) in s'.until && s.clock + policy.threshold <= s'.until[TimerOf(lc, k)]
  {
    PutKeepsValid(s, lc, k, v);
    BumpLasts(s.Put(lc, k, v), lc, k, policy);
    RaiseKeepsValid(s.Put(lc, k, v), lc, k, policy.ClampedFor(lc).threshold, policy.ClampedFor(lc).extendTo);
  }

  lemma CreditEffect(s: VaultStore, user: Address, amount: int, checked: bool, reply: Reply)
    requires s.Valid()
    ensures
      var outcome := Credit(s, user, amount, checked, reply);
      && (outcome.Ok? <==> !s.IsArchived(Persistent, Balance(user)) && !(checked && Overflows(Held(s, user), amount)))
      && (outcome.Ok? ==>
            && outcome.value.0 == reply && outcome.value.1.Valid()
            && outcome.value.1.data == s.data[(Persistent, Balance(user)) := Wrapped(Held(s, user), amount)]
            && OnlyMoves(s, outcome.value.1, {Own(Persistent, Balance(user))}))
  {
    if !s.IsArchived(Persistent, Balance(user)) {
      SetEffect(s, Persistent, Balance(user), Wrapped(Held(s, user), amount), BALANCE_POLICY);
    }
  }

  lemma WithdrawEffect(s: VaultStore, auth: set<Address>, user: Address, amount: i128)
    requires s.Valid()
    ensures
      var outcome := Withdraw(s, auth, user, amount);
      && (outcome.Ok? <==>
            user in auth && amount > 0 && !s.IsArchived(Persistent, Balance(user)) && amount <= Held(s, user))
      && (outcome.Ok? ==>
            && outcome.value.1.Valid()
            && outcome.value.1.data == s.data[(Persistent, Balance(user)) := Held(s, user) - amount]
            && OnlyMoves(s, outcome.value.1, {Own(Persistent, Balance(user))}))
  {
    var found := s.Get(Persistent, Balance(user), BALANCE_POLICY, true);
    GetReturns(s, Persistent, Balance(user), BALANCE_POLICY);
    if found.Ok? {
      GetEffect(s, Persistent, Balance(user), BALANCE_POLICY);
      StillAccessible(s, Persistent, Balance(user), BALANCE_POLICY);
      SetEffect(found.value.1, Persistent, Balance(user), Held(s, user) - amount, BALANCE_POLICY);
    }
  }

  lemma GetReturns(s: VaultStore, lc: Lifecycle, k: StorageKey, policy: TtlPolicy)
    requires s.Valid()
    ensures s.Get(lc, k, policy, true).Ok? <==> !s.IsArchived(lc, k)
  {
  }

  lemma StillAccessible(s: VaultStore, lc: Lifecycle, k: StorageKey, policy: TtlPolicy)
    requires s.Valid() && s.Get(lc, k, policy, true).Ok?
    ensures !s.Get(lc, k, policy, true).value.1.IsArchived(lc, k)
  {
  }

  lemma SetTtlEffect(s: VaultStore, k: StorageKey, v: int, ttl: nat)
    requires s.Valid() && !s.IsArchived(Persistent, k) && ttl <= MAX_PERSISTENT_TTL
    ensures s.SetTtl(Persistent, k, v, ttl).Ok?
    ensures
      var s' := s.SetTtl(Persistent, k, v, ttl).value;
      && s'.data == s.data[(Persistent, k) := v] && s'.Valid()
      && OnlyMoves(s, s', {Own(Persistent, k)})
      && Own(Persistent, k) in s'.until
      && s'.until[Own(Persistent, k)] == Max(s.clock + WrittenTtl(s, Persistent, k), s.clock + ttl)
  {
    PutKeepsValid(s, Persistent, k, v);
    RaiseKeepsValid(s.Put(Persistent, k, v), Persistent, k, ttl, ttl);
  }

  lemma GrantEffect(s: VaultStore, auth: set<Address>, user: Address, amount: i128)
    requires s.Valid()
    ensures
      var outcome := GiveGrant(s, auth, user, amount);
      var admin := s.Read(Instance, Admin);
      (outcome.Ok? <==>
         && !s.IsArchived(Instance, Admin) && admin.Some? && admin.value in auth
         && amount > 0 && !s.IsArchived(Persistent, Grant(user)))
    ensures
      var outcome := GiveGrant(s, auth, user, amount);
      outcome.Ok? ==>
        && outcome.value.1.Valid()
        && outcome.value.1.data == s.data[(Persistent, Grant(user)) := amount]
        && OnlyMoves(s, outcome.value.1, {Shared, Own(Persistent, Grant(user))})
        && Own(Persistent, Grant(user)) in outcome.value.1.until
        && outcome.value.1.until[Own(Persistent, Grant(user))] ==
           Max(s.clock + WrittenTtl(s, Persistent, Grant(user)), s.clock + GRANT_TTL)
  {
    var admin := s.Get(Instance, Admin, ADMIN_POLICY, true);
    GetReturns(s, Instance, Admin, ADMIN_POLICY);
    if admin.Ok? {
      var s' := admin.value.1;
      GetEffect(s, Instance, Admin, ADMIN_POLICY);
      assert s'.IsArchived(Persistent, Grant(user)) == s.IsArchived(Persistent, Grant(user));
      assert WrittenTtl(s', Persistent, Grant(user)) == WrittenTtl(s, Persistent, Grant(user));
      hide Store.Valid, Store.Get;
      if s.IsArchived(Persistent, Grant(user)) {
        assert s'.SetTtl(Persistent, Grant(user), amount, GRANT_TTL).Err?;
      } else {
        SetTtlEffect(s', Grant(user), amount, GRANT_TTL);
        hide Store.SetTtl;
      }
    }
  }

  lemma ClaimEffect(s: VaultStore, auth: set<Address>, user: Address, checked: bool)
    requires s.Valid()
    ensures
      var outcome := Claim(s, auth, user, checked);
      && (outcome.Ok? <==>
            && user in auth && !s.IsArchived(Persistent, Grant(user)) && Pending(s, user) != 0
            && !s.IsArchived(Persistent, Balance(user)) && !(checked && Overflows(Held(s, user), Pending(s, user))))
      && (outcome.Ok? ==>
            && outcome.value.0 == Amount(Pending(s, user)) && outcome.value.1.Valid()
            && outcome.value.1.data == DataAfter(s, DoClaim(user))
            && OnlyMoves(s, outcome.value.1, Timers(DoClaim(user))))
  {
    var found := s.Get(Persistent, Grant(user), GRANT_POLICY, true);
    GetReturns(s, Persistent, Grant(user), GRANT_POLICY);
    if found.Ok? {
      GetEffect(s, Persistent, Grant(user), GRANT_POLICY);
      StillAccessible(s, Persistent, Grant(user), GRANT_POLICY);
      var s' := found.value.1;
      EraseKeepsValid(s', Persistent, Grant(user));
      var s'' := s'.Erase(Persistent, Grant(user));
      assert s''.Read(Persistent, Balance(user)) == s.Read(Persistent, Balance(user));
      CreditEffect(s'', user, Pending(s, user), checked, Amount(Pending(s, user)));
    }
  }

  lemma NonceEffect(s: VaultStore, auth: set<Address>, user: Address, nonce: u64)
    requires s.Valid()
    ensures
      var outcome := ConsumeNonce(s, auth, user, nonce);
      && (outcome.Ok? <==> user in auth && nonce > OrZero(s.Read(Temporary, Nonce(user))))
      && (outcome.Ok? ==>
            && outcome.value.1.Valid()
            && outcome.value.1.data == s.data[(Temporary, Nonce(user)) := nonce]
            && OnlyMoves(s, outcome.value.1, {Own(Temporary, Nonce(user))})
            && Own(Temporary, Nonce(user)) in outcome.value.1.until
            && s.clock + LEDGERS_PER_DAY <= outcome.value.1.until[Own(Temporary, Nonce(user))])
  {
    var found := s.Get(Temporary, Nonce(user), NONCE_POLICY, true);
    assert !s.IsArchived(Temporary, Nonce(user));
    GetReturns(s, Temporary, Nonce(user), NONCE_POLICY);
    GetEffect(s, Temporary, Nonce(user), NONCE_POLICY);
    StillAccessible(s, Temporary, Nonce(user), NONCE_POLICY);
    SetEffect(found.value.1, Temporary, Nonce(user), nonce, NONCE_POLICY);
  }

  /** Every successful call leaves a valid store with the values `DataAfter` says, and moves no other timer. */
  lemma CallEffect(s: VaultStore, auth: set<Address>, call: Call, checked: bool)
    requires s.Valid() && Execute(s, auth, call, checked).Ok?
    ensures
      var s' := Execute(s, auth, call, checked).value.1;
      s'.Valid() && s'.data == DataAfter(s, call) && OnlyMoves(s, s', Timers(call))
  {
    match call {
      case DoDeposit(user, amount) => CreditEffect(s, user, amount, checked, Done);
      case DoWithdraw(user, amount) => WithdrawEffect(s, auth, user, amount);
      case DoBalance(user) => GetEffect(s, Persistent, Balance(user), BALANCE_POLICY);
      case DoAdmin => GetEffect(s, Instance, Admin, ADMIN_POLICY);
      case DoGrant(user, amount) => GrantEffect(s, auth, user, amount);
      case DoHasGrant(user) =>
      case DoClaim(user) => ClaimEffect(s, auth, user, checked);
      case DoConsumeNonce(user, nonce) => NonceEffect(s, auth, user, nonce);
    }
  }
}
