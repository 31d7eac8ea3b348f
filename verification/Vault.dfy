/** The example vault: its storage schema, what each entry point does, and the contract as transactions on the host. */
module Vault {
  import opened Machine
  import opened Wrappers
  import opened Ttl
  import opened Storage
  import opened HostEnv

  type Address = int

  datatype StorageKey = Balance(user: Address) | Nonce(user: Address) | Admin | Grant(user: Address)

  type VaultStore = Store<StorageKey, int>

  const BALANCE_POLICY: TtlPolicy := Days(7, 30)
  const NONCE_POLICY: TtlPolicy := DefaultPolicy(Temporary)
  const ADMIN_POLICY: TtlPolicy := DefaultPolicy(Instance)
  const GRANT_POLICY: TtlPolicy := DefaultPolicy(Persistent)
  const GRANT_TTL: nat := 14 * LEDGERS_PER_DAY

  const TWO_127: int := 0x8000_0000_0000_0000_0000_0000_0000_0000
  const TWO_128: int := 0x1_0000_0000_0000_0000_0000_0000_0000_0000
  type i128 = n: int | -0x8000_0000_0000_0000_0000_0000_0000_0000 <= n < 0x8000_0000_0000_0000_0000_0000_0000_0000

  datatype Failure =
    | Unauthorized
    | Uninitialized
    | NonPositiveAmount
    | InsufficientBalance
    | NothingToClaim
    | StaleNonce
    | Trapped(trap: Trap)

  datatype Reply = Done | Amount(amount: int) | Who(address: Address) | Flag(flag: bool)

  datatype Call =
    | DoDeposit(user: Address, amount: i128)
    | DoWithdraw(user: Address, amount: i128)
    | DoBalance(user: Address)
    | DoAdmin
    | DoGrant(user: Address, amount: i128)
    | DoHasGrant(user: Address)
    | DoClaim(user: Address)
    | DoConsumeNonce(user: Address, nonce: u64)

  predicate Overflows(balance: int, amount: int) {
    balance + amount >= TWO_127
  }

  /** Addition of a positive amount: an overflow panics in a checked build and wraps in a release build. */
  function Add(balance: int, amount: int, checked: bool): Result<int, Trap> {
    if !Overflows(balance, amount) then Ok(balance + amount)
    else if checked then Err(Panic)
    else Ok(balance + amount - TWO_128)
  }

  function OrZero(value: Option<int>): int {
    match value
    case Some(v) => v
    case None => 0
  }

  /** The closure that `deposit` and `claim` pass to `update`. */
  function Adding(amount: int, checked: bool): Option<int> -> Result<int, Trap> {
    (balance: Option<int>) => Add(OrZero(balance), amount, checked)
  }

  type Outcome = Result<(Reply, VaultStore), Failure>

  function Finish(reply: Reply, r: Result<VaultStore, Trap>): Outcome {
    match r
    case Ok(s) => Ok((reply, s))
    case Err(trap) => Err(Trapped(trap))
  }

  function Credit(s: VaultStore, user: Address, amount: int, checked: bool, reply: Reply): Outcome {
    match s.Update(Persistent, Balance(user), Adding(amount, checked), BALANCE_POLICY, true)
    case Ok((_, s')) => Ok((reply, s'))
    case Err(trap) => Err(Trapped(trap))
  }

  function Deposit(s: VaultStore, user: Address, amount: i128, checked: bool): Outcome {
    if amount <= 0 then Err(NonPositiveAmount) else Credit(s, user, amount, checked, Done)
  }

  function Withdraw(s: VaultStore, auth: set<Address>, user: Address, amount: i128): Outcome {
    if user !in auth then Err(Unauthorized)
    else if amount <= 0 then Err(NonPositiveAmount)
    else match s.Get(Persistent, Balance(user), BALANCE_POLICY, true)
      case Err(trap) => Err(Trapped(trap))
      case Ok((value, s')) =>
        if OrZero(value) < amount then Err(InsufficientBalance)
        else Finish(Done, s'.Set(Persistent, Balance(user), OrZero(value) - amount, BALANCE_POLICY, true))
  }

  function GiveGrant(s: VaultStore, auth: set<Address>, user: Address, amount: i128): Outcome {
    match s.Get(Instance, Admin, ADMIN_POLICY, true)
    case Err(trap) => Err(Trapped(trap))
    case Ok((admin, s')) =>
      if admin.None? then Err(Uninitialized)
      else if admin.value !in auth then Err(Unauthorized)
      else if amount <= 0 then Err(NonPositiveAmount)
      else Finish(Done, s'.SetTtl(Persistent, Grant(user), amount, GRANT_TTL))
  }

  function Claim(s: VaultStore, auth: set<Address>, user: Address, checked: bool): Outcome {
    if user !in auth then Err(Unauthorized)
    else match s.Get(Persistent, Grant(user), GRANT_POLICY, true)
      case Err(trap) => Err(Trapped(trap))
      case Ok((value, s')) =>
        var amount := OrZero(value);
        if amount == 0 then Err(NothingToClaim)
        else match s'.Remove(Persistent, Grant(user))
          case Err(trap) => Err(Trapped(trap))
          case Ok(s'') => Credit(s'', user, amount, checked, Amount(amount))
  }

  function ConsumeNonce(s: VaultStore, auth: set<Address>, user: Address, nonce: u64): Outcome {
    if user !in auth then Err(Unauthorized)
    else match s.Get(Temporary, Nonce(user), NONCE_POLICY, true)
      case Err(trap) => Err(Trapped(trap))
      case Ok((last, s')) =>
        if nonce <= OrZero(last) then Err(StaleNonce)
        else Finish(Done, s'.Set(Temporary, Nonce(user), nonce, NONCE_POLICY, true))
  }

  function BalanceOf(s: VaultStore, user: Address): Outcome {
    match s.Get(Persistent, Balance(user), BALANCE_POLICY, true)
    case Ok((value, s')) => Ok((Amount(OrZero(value)), s'))
    case Err(trap) => Err(Trapped(trap))
  }

  function AdminOf(s: VaultStore): Outcome {
    match s.Get(Instance, Admin, ADMIN_POLICY, true)
    case Err(trap) => Err(Trapped(trap))
    case Ok((admin, s')) => if admin.None? then Err(Uninitialized) else Ok((Who(admin.value), s'))
  }

  function HasGrant(s: VaultStore, user: Address): Outcome {
    match s.Has(Persistent, Grant(user))
    case Ok(has) => Ok((Flag(has), s))
    case Err(trap) => Err(Trapped(trap))
  }

  /** One call. A contract whose instance is archived cannot run at all. */
  function Execute(s: VaultStore, auth: set<Address>, call: Call, checked: bool): Outcome {
    if s.IsArchived(Instance, Admin) then Err(Trapped(ArchivedEntry))
    else match call
      case DoDeposit(user, amount) => Deposit(s, user, amount, checked)
      case DoWithdraw(user, amount) => Withdraw(s, auth, user, amount)
      case DoBalance(user) => BalanceOf(s, user)
      case DoAdmin => AdminOf(s)
      case DoGrant(user, amount) => GiveGrant(s, auth, user, amount)
      case DoHasGrant(user) => HasGrant(s, user)
      case DoClaim(user) => Claim(s, auth, user, checked)
      case DoConsumeNonce(user, nonce) => ConsumeNonce(s, auth, user, nonce)
  }

  /** What a transaction leaves behind: a failed one leaves everything as it was. */
  function Settled(s: VaultStore, outcome: Outcome): VaultStore {
    match outcome
    case Ok((_, s')) => s'
    case Err(_) => s
  }

  function ReplyOf(outcome: Outcome): Result<Reply, Failure> {
    match outcome
    case Ok((reply, _)) => Ok(reply)
    case Err(failure) => Err(failure)
  }

  /** An entry point that ended as specified; after a failure the stores are still to be rolled back. */
  ghost predicate Finished(outcome: Outcome, result: Result<Reply, Failure>, after: VaultStore) {
    result == ReplyOf(outcome) && (outcome.Ok? ==> after == outcome.value.1)
  }

  // ---------------------------------------------------------------------------
  // The contract
  // ---------------------------------------------------------------------------

  class Contract {
    const env: Env<StorageKey, int>
    const checked: bool

    /** Records the admin, who must have authorised the deployment. */
    constructor (env: Env<StorageKey, int>, auth: set<Address>, admin: Address, checked: bool)
      requires env.Valid() && !env.view.IsArchived(Instance, Admin)
      requires admin in auth
      modifies env
      ensures this.env == env && this.checked == checked
      ensures env.Valid()
      ensures old(env.view).Set(Instance, Admin, admin, ADMIN_POLICY, true) == Ok(env.view)
    {
      this.env, this.checked := env, checked;
      new;
      var done := env.Set(Instance, Admin, admin, ADMIN_POLICY, true);
    }

    /** Runs an entry point as a transaction: a panic puts every store back. */
    method Invoke(auth: set<Address>, call: Call) returns (result: Result<Reply, Failure>)
      requires env.Valid()
      modifies env
      ensures env.Valid()
      ensures
        var outcome := Execute(old(env.view), auth, call, checked);
        env.view == Settled(old(env.view), outcome) && result == ReplyOf(outcome)
    {
      hide Store.Valid, Shows, Deposit, Withdraw, BalanceOf, AdminOf, GiveGrant, HasGrant, Claim, ConsumeNonce;
      var saved := env.Contents();
      ghost var was := env.view;
      var runs := env.CanAccess(Instance, Admin);
      if !runs {
        return Err(Trapped(ArchivedEntry));
      }
      match call {
        case DoDeposit(user, amount) => result := RunDeposit(user, amount);
        case DoWithdraw(user, amount) => result := RunWithdraw(auth, user, amount);
        case DoBalance(user) => result := RunBalance(user);
        case DoAdmin => result := RunAdmin();
        case DoGrant(user, amount) => result := RunGrant(auth, user, amount);
        case DoHasGrant(user) => result := RunHasGrant(user);
        case DoClaim(user) => result := RunClaim(auth, user);
        case DoConsumeNonce(user, nonce) => result := RunConsumeNonce(auth, user, nonce);
      }
      if result.Err? {
        env.Rollback(saved, was);
      }
    }

    method RunDeposit(user: Address, amount: i128) returns (result: Result<Reply, Failure>)
      requires env.Valid()
      modifies env
      ensures env.Valid() && Finished(Deposit(old(env.view), user, amount, checked), result, env.view)
    {
      hide Store.Valid, Store.Update;
      if amount <= 0 {
        return Err(NonPositiveAmount);
      }
      result := RunCredit(user, amount, Done);
    }

    method RunCredit(user: Address, amount: int, reply: Reply) returns (result: Result<Reply, Failure>)
      requires env.Valid()
      modifies env
      ensures env.Valid() && Finished(Credit(old(env.view), user, amount, checked, reply), result, env.view)
    {
      hide Store.Valid, Shows, Store.Update, Adding;
      var credited := env.Update(Persistent, Balance(user), Adding(amount, checked), BALANCE_POLICY, true);
      match credited {
        case Ok(_) => result := Ok(reply);
        case Err(trap) => result := Err(Trapped(trap));
      }
    }

    method RunWithdraw(auth: set<Address>, user: Address, amount: i128) returns (result: Result<Reply, Failure>)
      requires env.Valid()
      modifies env
      ensures env.Valid() && Finished(Withdraw(old(env.view), auth, user, amount), result, env.view)
    {
      hide Store.Valid, Shows, Store.Get, Store.Set;
      if user !in auth {
        return Err(Unauthorized);
      }
      if amount <= 0 {
        return Err(NonPositiveAmount);
      }
      var found := env.Get(Persistent, Balance(user), BALANCE_POLICY, true);
      if found.Err? {
        return Err(Trapped(found.error));
      }
      var balance := OrZero(found.value);
      if balance < amount {
        return Err(InsufficientBalance);
      }
      var done := env.Set(Persistent, Balance(user), balance - amount, BALANCE_POLICY, true);
      result := if done.Ok? then Ok(Done) else Err(Trapped(done.error));
    }

    method RunBalance(user: Address) returns (result: Result<Reply, Failure>)
      requires env.Valid()
      modifies env
      ensures env.Valid() && Finished(BalanceOf(old(env.view), user), result, env.view)
    {
      hide Store.Valid, Shows, Store.Get;
      var found := env.Get(Persistent, Balance(user), BALANCE_POLICY, true);
      match found {
        case Ok(value) => result := Ok(Amount(OrZero(value)));
        case Err(trap) => result := Err(Trapped(trap));
      }
    }

    method RunAdmin() returns (result: Result<Reply, Failure>)
      requires env.Valid()
      modifies env
      ensures env.Valid() && Finished(AdminOf(old(env.view)), result, env.view)
    {
      hide Store.Valid, Shows, Store.Get;
      var found := env.Get(Instance, Admin, ADMIN_POLICY, true);
      if found.Err? {
        return Err(Trapped(found.error));
      }
      result := if found.value.None? then Err(Uninitialized) else Ok(Who(found.value.value));
    }

    method RunGrant(auth: set<Address>, user: Address, amount: i128) returns (result: Result<Reply, Failure>)
      requires env.Valid()
      modifies env
      ensures env.Valid() && Finished(GiveGrant(old(env.view), auth, user, amount), result, env.view)
    {
      hide Store.Valid, Shows, Store.Get, Store.SetTtl;
      var admin := env.Get(Instance, Admin, ADMIN_POLICY, true);
      if admin.Err? {
        return Err(Trapped(admin.error));
      }
      if admin.value.None? {
        return Err(Uninitialized);
      }
      if admin.value.value !in auth {
        return Err(Unauthorized);
      }
      if amount <= 0 {
        return Err(NonPositiveAmount);
      }
      var done := env.SetTtl(Persistent, Grant(user), amount, GRANT_TTL);
      result := if done.Ok? then Ok(Done) else Err(Trapped(done.error));
    }

    method RunHasGrant(user: Address) returns (result: Result<Reply, Failure>)
      requires env.Valid()
      ensures Finished(HasGrant(env.view, user), result, env.view)
    {
      hide Store.Valid, Shows, Store.Has;
      var has := env.Has(Persistent, Grant(user));
      match has {
        case Ok(flag) => result := Ok(Flag(flag));
        case Err(trap) => result := Err(Trapped(trap));
      }
    }

    method RunClaim(auth: set<Address>, user: Address) returns (result: Result<Reply, Failure>)
      requires env.Valid()
      modifies env
      ensures env.Valid() && Finished(Claim(old(env.view), auth, user, checked), result, env.view)
    {
      hide Store.Valid, Shows, Store.Get, Store.Remove, Store.Update, Credit;
      if user !in auth {
        return Err(Unauthorized);
      }
      var found := env.Get(Persistent, Grant(user), GRANT_POLICY, true);
      if found.Err? {
        return Err(Trapped(found.error));
      }
      var amount := OrZero(found.value);
      if amount == 0 {
        return Err(NothingToClaim);
      }
      var removed := env.Remove(Persistent, Grant(user));
      if removed.Err? {
        return Err(Trapped(removed.error));
      }
      result := RunCredit(user, amount, Amount(amount));
    }

    method RunConsumeNonce(auth: set<Address>, user: Address, nonce: u64) returns (result: Result<Reply, Failure>)
      requires env.Valid()
      modifies env
      ensures env.Valid() && Finished(ConsumeNonce(old(env.view), auth, user, nonce), result, env.view)
    {
      hide Store.Valid, Shows, Store.Get, Store.Set;
      if user !in auth {
        return Err(Unauthorized);
      }
      var last := env.Get(Temporary, Nonce(user), NONCE_POLICY, true);
      if last.Err? {
        return Err(Trapped(last.error));
      }
      if nonce <= OrZero(last.value) {
        return Err(StaleNonce);
      }
      var done := env.Set(Temporary, Nonce(user), nonce, NONCE_POLICY, true);
      result := if done.Ok? then Ok(Done) else Err(Trapped(done.error));
    }
  }
}
