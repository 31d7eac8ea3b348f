/** What every vault call answers, why it is refused, and where it leaves the lifetimes. */
module VaultAnswers {
  import opened Machine
  import opened Wrappers
  import opened Ttl
  import opened Storage
  import opened StorageRuns
  import opened StorageTimers
  import opened Vault
  import opened VaultEffects

  // ---------------------------------------------------------------------------
  // Replies
  // ---------------------------------------------------------------------------

  /** The balance is readable exactly while neither the instance nor the balance is archived, and reads as it is held. */
  lemma BalanceAnswers(s: VaultStore, auth: set<Address>, user: Address, checked: bool)
    requires s.Valid()
    ensures
      var outcome := Execute(s, auth, DoBalance(user), checked);
      && (outcome.Ok? <==> !s.IsArchived(Instance, Admin) && !s.IsArchived(Persistent, Balance(user)))
      && (outcome.Ok? ==> outcome.value.0 == Amount(Held(s, user)))
  {
    GetReturns(s, Persistent, Balance(user), BALANCE_POLICY);
  }

  lemma AdminAnswers(s: VaultStore, auth: set<Address>, checked: bool)
    requires s.Valid()
    ensures
      var outcome := Execute(s, auth, DoAdmin, checked);
      && (outcome.Ok? <==> !s.IsArchived(Instance, Admin) && s.Read(Instance, Admin).Some?)
      && (outcome.Ok? ==> s.Read(Instance, Admin) == Some(outcome.value.0.address) && outcome.value.0.Who?)
  {
    GetReturns(s, Instance, Admin, ADMIN_POLICY);
  }

  /** Whether there is a grant to claim; a look changes nothing. */
  lemma HasGrantAnswers(s: VaultStore, auth: set<Address>, user: Address, checked: bool)
    requires s.Valid()
    ensures
      var outcome := Execute(s, auth, DoHasGrant(user), checked);
      && (outcome.Ok? <==> !s.IsArchived(Instance, Admin) && !s.IsArchived(Persistent, Grant(user)))
      && (outcome.Ok? ==> outcome.value == (Flag((Persistent, Grant(user)) in s.data), s))
  {
  }

  /** Every successful call answers with what it is for: a look with what is stored, a claim with the amount paid. */
  lemma EveryCallAnswers(s: VaultStore, auth: set<Address>, call: Call, checked: bool)
    requires s.Valid() && Execute(s, auth, call, checked).Ok?
    ensures Execute(s, auth, call, checked).value.0 ==
      match call
      case DoBalance(user) => Amount(Held(s, user))
      case DoAdmin => Who(OrZero(s.Read(Instance, Admin)))
      case DoHasGrant(user) => Flag((Persistent, Grant(user)) in s.data)
      case DoClaim(user) => Amount(Pending(s, user))
      case _ => Done
  {
    match call {
      case DoDeposit(user, amount) => CreditEffect(s, user, amount, checked, Done);
      case DoBalance(user) => BalanceAnswers(s, auth, user, checked);
      case DoAdmin => AdminAnswers(s, auth, checked);
      case DoHasGrant(user) => HasGrantAnswers(s, auth, user, checked);
      case DoClaim(user) => ClaimEffect(s, auth, user, checked);
      case _ =>
    }
  }

  // ---------------------------------------------------------------------------
  // Refusals
  // ---------------------------------------------------------------------------

  const I128_MAX: int := 0x7FFF_FFFF_FFFF_FFFF_FFFF_FFFF_FFFF_FFFF
  const ARCHIVED := Trapped(ArchivedEntry)

  /** A check: the failure it leads to when it does not pass, else what later checks lead to. */
  function Unless(wrong: bool, failure: Failure, later: Option<Failure>): Option<Failure> {
    if wrong then Some(failure) else later
  }

  /** The failure of the first check that a call does not pass. */
  function FirstWrong(s: VaultStore, auth: set<Address>, call: Call, checked: bool): Option<Failure> {
    Unless(s.IsArchived(Instance, Admin), ARCHIVED,
    match call
    case DoDeposit(user, amount) =>
      Unless(amount <= 0, NonPositiveAmount,
      Unless(s.IsArchived(Persistent, Balance(user)), ARCHIVED,
      Unless(checked && Held(s, user) + amount > I128_MAX, Trapped(Panic), None)))
    case DoWithdraw(user, amount) =>
      Unless(user !in auth, Unauthorized,
      Unless(amount <= 0, NonPositiveAmount,
      Unless(s.IsArchived(Persistent, Balance(user)), ARCHIVED,
      Unless(Held(s, user) < amount, InsufficientBalance, None))))
    case DoBalance(user) => Unless(s.IsArchived(Persistent, Balance(user)), ARCHIVED, None)
    case DoAdmin => Unless(s.Read(Instance, Admin).None?, Uninitialized, None)
    case DoGrant(user, amount) =>
      Unless(s.Read(Instance, Admin).None?, Uninitialized,
      Unless(OrZero(s.Read(Instance, Admin)) !in auth, Unauthorized,
      Unless(amount <= 0, NonPositiveAmount,
      Unless(s.IsArchived(Persistent, Grant(user)), ARCHIVED, None))))
    case DoHasGrant(user) => Unless(s.IsArchived(Persistent, Grant(user)), ARCHIVED, None)
    case DoClaim(user) =>
      Unless(user !in auth, Unauthorized,
      Unless(s.IsArchived(Persistent, Grant(user)), ARCHIVED,
      Unless(Pending(s, user) == 0, NothingToClaim,
      Unless(s.IsArchived(Persistent, Balance(user)), ARCHIVED,
      Unless(checked && Held(s, user) + Pending(s, user) > I128_MAX, Trapped(Panic), None)))))
    case DoConsumeNonce(user, nonce) =>
      Unless(user !in auth, Unauthorized,
      Unless(nonce <= OrZero(s.Read(Temporary, Nonce(user))), StaleNonce, None)))
  }

  /** The call goes as its checks say: it fails as the first that does not pass, and succeeds when all pass. */
  ghost predicate GoesAs(s: VaultStore, auth: set<Address>, call: Call, checked: bool) {
    match FirstWrong(s, auth, call, checked)
    case Some(failure) => Execute(s, auth, call, checked) == Err(failure)
    case None => Execute(s, auth, call, checked).Ok?
  }

  lemma RefusedExactly(s: VaultStore, auth: set<Address>, call: Call, checked: bool)
    requires s.Valid()
    ensures GoesAs(s, auth, call, checked)
  {
    hide GoesAs;
    match call {
      case DoDeposit(user, amount) => DepositRefused(s, auth, user, amount, checked);
      case DoWithdraw(user, amount) => WithdrawRefused(s, auth, user, amount, checked);
      case DoGrant(user, amount) => GrantRefused(s, auth, user, amount, checked);
      case DoClaim(user) => ClaimRefused(s, auth, user, checked);
      case DoConsumeNonce(user, nonce) => NonceRefused(s, auth, user, nonce, checked);
      case _ => LookRefused(s, auth, call, checked);
    }
  }

  lemma LookRefused(s: VaultStore, auth: set<Address>, call: Call, checked: bool)
    requires s.Valid() && (call.DoBalance? || call.DoAdmin? || call.DoHasGrant?)
    ensures GoesAs(s, auth, call, checked)
  {
    match call {
      case DoBalance(user) => GetReturnsOrTraps(s, Persistent, Balance(user), BALANCE_POLICY);
      case DoAdmin => GetReturnsOrTraps(s, Instance, Admin, ADMIN_POLICY);
      case DoHasGrant(user) =>
    }
  }

  lemma GetReturnsOrTraps(s: VaultStore, lc: Lifecycle, k: StorageKey, policy: TtlPolicy)
    requires s.Valid()
    ensures
      var found := s.Get(lc, k, policy, true);
      && (found.Ok? <==> !s.IsArchived(lc, k)) && (found.Err? ==> found.error == ArchivedEntry)
      && (found.Ok? ==> found.value.0 == s.Read(lc, k))
  {
  }

  lemma CreditRefused(s: VaultStore, user: Address, amount: int, checked: bool, reply: Reply)
    requires s.Valid()
    ensures
      var outcome := Credit(s, user, amount, checked, reply);
      var trap := if s.IsArchived(Persistent, Balance(user)) then ArchivedEntry else Panic;
      outcome.Err? ==> outcome.error == Trapped(trap)
  {
    UpdateAnswers(s, Persistent, Balance(user), Adding(amount, checked), BALANCE_POLICY, true);
    hide Store.Valid, Store.Update;
  }

  lemma DepositRefused(s: VaultStore, auth: set<Address>, user: Address, amount: i128, checked: bool)
    requires s.Valid()
    ensures GoesAs(s, auth, DoDeposit(user, amount), checked)
  {
    CreditEffect(s, user, amount, checked, Done);
    CreditRefused(s, user, amount, checked, Done);
    hide Store.Valid, Credit;
  }

  lemma WithdrawRefused(s: VaultStore, auth: set<Address>, user: Address, amount: i128, checked: bool)
    requires s.Valid()
    ensures GoesAs(s, auth, DoWithdraw(user, amount), checked)
  {
    WithdrawEffect(s, auth, user, amount);
    GetReturnsOrTraps(s, Persistent, Balance(user), BALANCE_POLICY);
    hide Store.Valid, Store.Get, Store.Set, Store.IsArchived;
  }

  lemma GrantRefused(s: VaultStore, auth: set<Address>, user: Address, amount: i128, checked: bool)
    requires s.Valid()
    ensures GoesAs(s, auth, DoGrant(user, amount), checked)
  {
    GrantEffect(s, auth, user, amount);
    GetReturnsOrTraps(s, Instance, Admin, ADMIN_POLICY);
    if !s.IsArchived(Instance, Admin) {
      GetEffect(s, Instance, Admin, ADMIN_POLICY);
      var s' := s.Get(Instance, Admin, ADMIN_POLICY, true).value.1;
      assert s'.IsArchived(Persistent, Grant(user)) == s.IsArchived(Persistent, Grant(user));
      SetTtlRefused(s', Grant(user), amount, GRANT_TTL);
    }
    hide Store.Valid, Store.Get, Store.SetTtl, Store.IsArchived;
  }

  lemma SetTtlRefused(s: VaultStore, k: StorageKey, v: int, ttl: nat)
    requires s.Valid()
    ensures s.SetTtl(Persistent, k, v, ttl).Err? ==>
      s.IsArchived(Persistent, k) && s.SetTtl(Persistent, k, v, ttl).error == ArchivedEntry
  {
    TrapsExactly(s, Persistent, k, v, ttl, GRANT_POLICY, true);
  }

  /** Once the grant is read and removed, a claim is a credit. */
  lemma ClaimIsCredit(s: VaultStore, auth: set<Address>, user: Address, checked: bool) returns (s'': VaultStore)
    requires s.Valid() && user in auth && !s.IsArchived(Persistent, Grant(user)) && Pending(s, user) != 0
    ensures s''.Valid() && s''.IsArchived(Persistent, Balance(user)) == s.IsArchived(Persistent, Balance(user))
    ensures StartTtl(s'', Persistent, Balance(user)) == StartTtl(s, Persistent, Balance(user))
    ensures Claim(s, auth, user, checked) == Credit(s'', user, Pending(s, user), checked, Amount(Pending(s, user)))
  {
    GetReturnsOrTraps(s, Persistent, Grant(user), GRANT_POLICY);
    GetEffect(s, Persistent, Grant(user), GRANT_POLICY);
    StillAccessible(s, Persistent, Grant(user), GRANT_POLICY);
    var s' := s.Get(Persistent, Grant(user), GRANT_POLICY, true).value.1;
    EraseKeepsValid(s', Persistent, Grant(user));
    s'' := s'.Erase(Persistent, Grant(user));
    assert s'.Remove(Persistent, Grant(user)) == Ok(s'');
    hide Credit, Store.Get, Store.Valid;
  }

  lemma ClaimRefused(s: VaultStore, auth: set<Address>, user: Address, checked: bool)
    requires s.Valid()
    ensures GoesAs(s, auth, DoClaim(user), checked)
  {
    ClaimEffect(s, auth, user, checked);
    if user in auth && !s.IsArchived(Persistent, Grant(user)) && Pending(s, user) != 0 {
      var s'' := ClaimIsCredit(s, auth, user, checked);
      CreditRefused(s'', user, Pending(s, user), checked, Amount(Pending(s, user)));
      hide Claim, Credit, Store.Valid, Store.IsArchived;
    } else {
      GetReturnsOrTraps(s, Persistent, Grant(user), GRANT_POLICY);
      hide Store.Valid, Store.Get, Store.Remove, Credit, Store.IsArchived;
    }
  }

  lemma NonceRefused(s: VaultStore, auth: set<Address>, user: Address, nonce: u64, checked: bool)
    requires s.Valid()
    ensures GoesAs(s, auth, DoConsumeNonce(user, nonce), checked)
  {
    assert !s.IsArchived(Temporary, Nonce(user));
    NonceEffect(s, auth, user, nonce);
    GetReturnsOrTraps(s, Temporary, Nonce(user), NONCE_POLICY);
    hide Store.Valid, Store.Get, Store.Set, Store.IsArchived;
  }

  // ---------------------------------------------------------------------------
  // Lifetimes
  // ---------------------------------------------------------------------------

  /** An access in numbers: fewer than `low` days left become `high` days. */
  function Refreshed(left: nat, low: nat, high: nat): nat {
    if left < low * 17_280 then high * 17_280 else left
  }

  lemma CreditRefreshes(s: VaultStore, user: Address, amount: int, checked: bool, reply: Reply)
    requires s.Valid() && Credit(s, user, amount, checked, reply).Ok?
    ensures Credit(s, user, amount, checked, reply).value.1.Ttl(Persistent, Balance(user))
         == Refreshed(StartTtl(s, Persistent, Balance(user)), 7, 30)
  {
    CreditEffect(s, user, amount, checked, reply);
    SetLeaves(s, Persistent, Balance(user), Wrapped(Held(s, user), amount), BALANCE_POLICY, true);
    hide Store.Valid, Store.Set, Store.Ttl;
  }

  lemma DepositRefreshes(s: VaultStore, auth: set<Address>, user: Address, amount: i128, checked: bool)
    requires s.Valid() && Execute(s, auth, DoDeposit(user, amount), checked).Ok?
    ensures Execute(s, auth, DoDeposit(user, amount), checked).value.1.Ttl(Persistent, Balance(user))
         == Refreshed(StartTtl(s, Persistent, Balance(user)), 7, 30)
  {
    CreditRefreshes(s, user, amount, checked, Done);
  }

  lemma ClaimRefreshes(s: VaultStore, auth: set<Address>, user: Address, checked: bool)
    requires s.Valid() && Execute(s, auth, DoClaim(user), checked).Ok?
    ensures Execute(s, auth, DoClaim(user), checked).value.1.Ttl(Persistent, Balance(user))
         == Refreshed(StartTtl(s, Persistent, Balance(user)), 7, 30)
  {
    ClaimEffect(s, auth, user, checked);
    var s'' := ClaimIsCredit(s, auth, user, checked);
    hide Claim, Credit, Store.Valid;
    CreditRefreshes(s'', user, Pending(s, user), checked, Amount(Pending(s, user)));
  }

  lemma GetRefreshes(s: VaultStore, lc: Lifecycle, k: StorageKey, policy: TtlPolicy)
    requires s.Valid() && s.Get(lc, k, policy, true).Ok?
    ensures s.Get(lc, k, policy, true).value.1.Ttl(lc, k) ==
      if s.Read(lc, k).Some? then Bumped(s.Ttl(lc, k), policy, lc) else s.Ttl(lc, k)
  {
    if s.Read(lc, k).Some? {
      BumpLeaves(s, lc, k, policy);
    }
  }

  lemma WithdrawRefreshes(s: VaultStore, auth: set<Address>, user: Address, amount: i128, checked: bool)
    requires s.Valid() && Execute(s, auth, DoWithdraw(user, amount), checked).Ok?
    ensures Execute(s, auth, DoWithdraw(user, amount), checked).value.1.Ttl(Persistent, Balance(user))
         == Refreshed(s.Ttl(Persistent, Balance(user)), 7, 30)
  {
    GetEffect(s, Persistent, Balance(user), BALANCE_POLICY);
    GetRefreshes(s, Persistent, Balance(user), BALANCE_POLICY);
    StillAccessible(s, Persistent, Balance(user), BALANCE_POLICY);
    var s' := s.Get(Persistent, Balance(user), BALANCE_POLICY, true).value.1;
    assert TimerOf(Persistent, Balance(user)) in s'.until;
    SetLeaves(s', Persistent, Balance(user), Held(s, user) - amount, BALANCE_POLICY, true);
    hide Store.Valid, Store.Get, Store.Set, Store.Ttl, Store.IsArchived;
  }

  lemma NonceRefreshes(s: VaultStore, auth: set<Address>, user: Address, nonce: u64, checked: bool)
    requires s.Valid() && Execute(s, auth, DoConsumeNonce(user, nonce), checked).Ok?
    ensures Execute(s, auth, DoConsumeNonce(user, nonce), checked).value.1.Ttl(Temporary, Nonce(user))
         == Refreshed(StartTtl(s, Temporary, Nonce(user)), 1, 30)
  {
    GetEffect(s, Temporary, Nonce(user), NONCE_POLICY);
    GetRefreshes(s, Temporary, Nonce(user), NONCE_POLICY);
    StillAccessible(s, Temporary, Nonce(user), NONCE_POLICY);
    var s' := s.Get(Temporary, Nonce(user), NONCE_POLICY, true).value.1;
    assert TimerOf(Temporary, Nonce(user)) in s.until <==> s.Read(Temporary, Nonce(user)).Some?;
    SetLeaves(s', Temporary, Nonce(user), nonce, NONCE_POLICY, true);
    hide Store.Valid, Store.Get, Store.Set, Store.Ttl, Store.IsArchived;
  }

  lemma GrantRefreshes(s: VaultStore, auth: set<Address>, user: Address, amount: i128, checked: bool)
    requires s.Valid() && Execute(s, auth, DoGrant(user, amount), checked).Ok?
    ensures
      var s' := Execute(s, auth, DoGrant(user, amount), checked).value.1;
      && s'.Ttl(Persistent, Grant(user)) == Max(StartTtl(s, Persistent, Grant(user)), 14 * 17_280)
      && s'.Ttl(Instance, Admin) == Refreshed(s.Ttl(Instance, Admin), 7, 30)
  {
    GetEffect(s, Instance, Admin, ADMIN_POLICY);
    GetRefreshes(s, Instance, Admin, ADMIN_POLICY);
    GetReturns(s, Instance, Admin, ADMIN_POLICY);
    var s' := s.Get(Instance, Admin, ADMIN_POLICY, true).value.1;
    assert StartTtl(s', Persistent, Grant(user)) == StartTtl(s, Persistent, Grant(user));
    PutLeaves(s', Persistent, Grant(user), amount);
    ExtendLeaves(s'.Put(Persistent, Grant(user), amount), Persistent, Grant(user), GRANT_TTL, GRANT_TTL);
    SetTtlEffect(s', Grant(user), amount, GRANT_TTL);
  }

  /** Where every successful call leaves the lifetimes of what it touches. */
  lemma EveryCallRefreshes(s: VaultStore, auth: set<Address>, call: Call, checked: bool)
    requires s.Valid() && Execute(s, auth, call, checked).Ok?
    ensures
      var s' := Execute(s, auth, call, checked).value.1;
      match call
      case DoDeposit(user, _) =>
        s'.Ttl(Persistent, Balance(user)) == Refreshed(StartTtl(s, Persistent, Balance(user)), 7, 30)
      case DoWithdraw(user, _) => s'.Ttl(Persistent, Balance(user)) == Refreshed(s.Ttl(Persistent, Balance(user)), 7, 30)
      case DoBalance(user) =>
        s'.Ttl(Persistent, Balance(user)) ==
          if s.Read(Persistent, Balance(user)).Some? then Refreshed(s.Ttl(Persistent, Balance(user)), 7, 30) else 0
      case DoAdmin => s'.Ttl(Instance, Admin) == Refreshed(s.Ttl(Instance, Admin), 7, 30)
      case DoGrant(user, _) =>
        && s'.Ttl(Persistent, Grant(user)) == Max(StartTtl(s, Persistent, Grant(user)), 14 * 17_280)
        && s'.Ttl(Instance, Admin) == Refreshed(s.Ttl(Instance, Admin), 7, 30)
      case DoHasGrant(_) => s' == s
      case DoClaim(user) =>
        && s'.Ttl(Persistent, Balance(user)) == Refreshed(StartTtl(s, Persistent, Balance(user)), 7, 30)
        && s'.Ttl(Persistent, Grant(user)) == 0
      case DoConsumeNonce(user, _) =>
        s'.Ttl(Temporary, Nonce(user)) == Refreshed(StartTtl(s, Temporary, Nonce(user)), 1, 30)
  {
    match call {
      case DoDeposit(user, amount) => DepositRefreshes(s, auth, user, amount, checked);
      case DoWithdraw(user, amount) => WithdrawRefreshes(s, auth, user, amount, checked);
      case DoBalance(user) => GetRefreshes(s, Persistent, Balance(user), BALANCE_POLICY);
      case DoAdmin => GetRefreshes(s, Instance, Admin, ADMIN_POLICY);
      case DoGrant(user, amount) => GrantRefreshes(s, auth, user, amount, checked);
      case DoHasGrant(user) => HasGrantAnswers(s, auth, user, checked);
      case DoClaim(user) =>
        ClaimRefreshes(s, auth, user, checked);
        ClaimEndsGrant(s, auth, user, checked);
      case DoConsumeNonce(user, nonce) => NonceRefreshes(s, auth, user, nonce, checked);
    }
  }

  lemma ClaimEndsGrant(s: VaultStore, auth: set<Address>, user: Address, checked: bool)
    requires s.Valid() && Execute(s, auth, DoClaim(user), checked).Ok?
    ensures Execute(s, auth, DoClaim(user), checked).value.1.Ttl(Persistent, Grant(user)) == 0
  {
    ClaimEffect(s, auth, user, checked);
  }
}
