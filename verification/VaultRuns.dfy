/** Sums over the stored amounts of one kind. */
module VaultSums {
  import opened Ttl
  import opened Vault

  type Slot = (Lifecycle, StorageKey)

  datatype Kind = Balances | Grants

  predicate Counts(kind: Kind, slot: Slot) {
    slot.0 == Persistent && if kind == Balances then slot.1.Balance? else slot.1.Grant?
  }

  ghost function SumOver(data: map<Slot, int>, slots: set<Slot>): int
    requires slots <= data.Keys
  {
    if slots == {} then 0
    else
      var slot :| slot in slots;
      data[slot] + SumOver(data, slots - {slot})
  }

  function SlotsOf(data: map<Slot, int>, kind: Kind): set<Slot> {
    set slot | slot in data && Counts(kind, slot)
  }

  /** All amounts of a kind, live and archived. */
  ghost function Total(data: map<Slot, int>, kind: Kind): int {
    SumOver(data, SlotsOf(data, kind))
  }

  lemma {:induction false} SumTakes(data: map<Slot, int>, slots: set<Slot>, slot: Slot)
    requires slots <= data.Keys && slot in slots
    ensures SumOver(data, slots) == data[slot] + SumOver(data, slots - {slot})
  {
    var first :| first in slots && SumOver(data, slots) == data[first] + SumOver(data, slots - {first});
    if first != slot {
      SumTakes(data, slots - {first}, slot);
      SumTakes(data, slots - {slot}, first);
      assert slots - {first} - {slot} == slots - {slot} - {first};
    }
  }

  lemma {:induction false} SumSees(data: map<Slot, int>, data': map<Slot, int>, slots: set<Slot>)
    requires slots <= data.Keys && slots <= data'.Keys
    requires forall slot :: slot in slots ==> data[slot] == data'[slot]
    ensures SumOver(data, slots) == SumOver(data', slots)
  {
    if slots != {} {
      var slot :| slot in slots;
      SumTakes(data, slots, slot);
      SumTakes(data', slots, slot);
      SumSees(data, data', slots - {slot});
    }
  }

  /** The total sees nothing but the slots of its kind. */
  lemma TotalSees(data: map<Slot, int>, data': map<Slot, int>, kind: Kind)
    requires forall slot :: Counts(kind, slot) ==>
      (slot in data <==> slot in data') && (slot in data ==> data[slot] == data'[slot])
    ensures Total(data, kind) == Total(data', kind)
  {
    assert SlotsOf(data, kind) == SlotsOf(data', kind);
    SumSees(data, data', SlotsOf(data, kind));
  }

  function At(data: map<Slot, int>, slot: Slot): int {
    if slot in data then data[slot] else 0
  }

  /** Removing a slot takes its amount out of the total. */
  lemma TotalWithout(data: map<Slot, int>, kind: Kind, slot: Slot)
    requires Counts(kind, slot)
    ensures Total(data - {slot}, kind) == Total(data, kind) - At(data, slot)
  {
    var slots := SlotsOf(data, kind);
    assert SlotsOf(data - {slot}, kind) == slots - {slot};
    SumSees(data, data - {slot}, slots - {slot});
    if slot in data {
      SumTakes(data, slots, slot);
    } else {
      assert slots - {slot} == slots;
    }
  }

  /** Writing a slot replaces its amount in the total. */
  lemma TotalPut(data: map<Slot, int>, kind: Kind, slot: Slot, amount: int)
    requires Counts(kind, slot)
    ensures Total(data[slot := amount], kind) == Total(data, kind) - At(data, slot) + amount
  {
    var data' := data[slot := amount];
    TotalWithout(data, kind, slot);
    TotalWithout(data', kind, slot);
    TotalSees(data - {slot}, data' - {slot}, kind);
  }
}

/**
 * Runs of the vault: calls with any authorisation, closing ledgers, restores, and extensions bought by others, in any
 * order. The books record what the calls that succeeded did.
 */
module VaultRuns {
  import opened Machine
  import opened Wrappers
  import opened Ttl
  import opened Storage
  import opened Vault
  import opened VaultEffects
  import opened VaultSums

  datatype Event =
    | Calls(auth: set<Address>, call: Call)
    | Closes(ledgers: nat)
    | Restores(lc: Lifecycle, key: StorageKey)
    | Extends(lc: Lifecycle, key: StorageKey, ttl: nat)

  datatype Books = Books(
    deposits: int, withdrawals: int, claims: int, grants: int,
    /** how many additions wrapped around */
    wraps: nat,
    /** ledger and amount of the last grant to a user */
    grantedAt: map<Address, nat>, lastGrant: map<Address, int>,
    /** users whose pending grant was restored, or extended by someone else */
    restored: set<Address>, extended: set<Address>,
    /** the nonces accepted in the present lifetime of a user's nonce entry, and the ledger of the last */
    accepted: map<Address, seq<int>>, acceptedAt: map<Address, nat>)

  datatype World = World(store: VaultStore, books: Books)

  function Accepted(books: Books, user: Address): seq<int> {
    if user in books.accepted then books.accepted[user] else []
  }

  function AcceptedAt(books: Books, user: Address): nat {
    if user in books.acceptedAt then books.acceptedAt[user] else 0
  }

  function Record(books: Books, s: VaultStore, call: Call): Books {
    match call
    case DoDeposit(user, amount) =>
      books.(deposits := books.deposits + amount,
             wraps := books.wraps + if Overflows(Held(s, user), amount) then 1 else 0)
    case DoWithdraw(user, amount) => books.(withdrawals := books.withdrawals + amount)
    case DoGrant(user, amount) =>
      books.(grants := books.grants + amount, grantedAt := books.grantedAt[user := s.clock],
             lastGrant := books.lastGrant[user := amount], restored := books.restored - {user})
    case DoClaim(user) =>
      books.(claims := books.claims + Pending(s, user),
             wraps := books.wraps + (if Overflows(Held(s, user), Pending(s, user)) then 1 else 0),
             restored := books.restored - {user}, extended := books.extended - {user})
    case DoConsumeNonce(user, nonce) =>
      books.(accepted := books.accepted[user := Accepted(books, user) + [nonce]],
             acceptedAt := books.acceptedAt[user := s.clock])
    case _ => books
  }

  function Next(w: World, e: Event, checked: bool): World {
    var s := w.store;
    match e
    case Calls(auth, call) =>
      var outcome := Execute(s, auth, call, checked);
      World(Settled(s, outcome), if outcome.Ok? then Record(w.books, s, call) else w.books)
    case Closes(ledgers) =>
      var s' := s.Advance(ledgers);
      World(s', w.books.(accepted := map user | user in w.books.accepted && (Temporary, Nonce(user)) in s'.data ::
                                       w.books.accepted[user]))
    case Restores(lc, key) =>
      World(s.Restored(lc, key),
            if lc == Persistent && key.Grant? && s.IsArchived(lc, key) then w.books.(restored := w.books.restored + {key.user}) else w.books)
    case Extends(lc, key, ttl) =>
      var done := s.ExtendTtl(lc, key, ttl);
      World(if done.Ok? then done.value else s,
            if lc == Persistent && key.Grant? && done.Ok? then w.books.(extended := w.books.extended + {key.user}) else w.books)
  }

  function Reach(w: World, events: seq<Event>, checked: bool): World {
    if events == [] then w else Next(Reach(w, events[..|events| - 1], checked), events[|events| - 1], checked)
  }

  lemma ReachTwo(w: World, a: Event, b: Event, checked: bool)
    ensures Reach(w, [a], checked) == Next(w, a, checked)
    ensures Reach(w, [a, b], checked) == Next(Next(w, a, checked), b, checked)
  {
    assert [a, b][..1] == [a] && [a][..0] == [];
  }

  lemma ReachFour(w: World, a: Event, b: Event, c: Event, d: Event, checked: bool)
    ensures Reach(w, [a, b, c, d], checked) == Next(Next(Reach(w, [a, b], checked), c, checked), d, checked)
  {
    assert [a, b, c, d][..3] == [a, b, c] && [a, b, c][..2] == [a, b];
  }

  const NO_BOOKS := Books(0, 0, 0, 0, 0, map[], map[], {}, {}, map[], map[])

  /** A deployed vault: an admin, and no balance, grant or nonce yet. */
  ghost predicate Deployed(w: World) {
    && w.store.Valid() && w.books == NO_BOOKS
    && forall slot :: slot in w.store.data ==> slot == (Instance, Admin)
  }

  lemma NextKeepsValid(w: World, e: Event, checked: bool)
    requires w.store.Valid()
    ensures Next(w, e, checked).store.Valid()
  {
    match e {
      case Calls(auth, call) =>
        if Execute(w.store, auth, call, checked).Ok? {
          CallEffect(w.store, auth, call, checked);
        }
      case Closes(ledgers) => AdvanceKeepsValid(w.store, ledgers);
      case Restores(lc, key) => RestoredKeepsValid(w.store, lc, key);
      case Extends(lc, key, ttl) =>
        if w.store.ExtendTtl(lc, key, ttl).Ok? {
          RaiseKeepsValid(w.store, lc, key, ttl, ttl);
        }
    }
  }

  // ---------------------------------------------------------------------------
  // Conservation of funds
  // ---------------------------------------------------------------------------

  /** Money is what the books say, short of 2^128 for every addition that wrapped. */
  ghost predicate Conserved(w: World) {
    Total(w.store.data, Balances)
      == w.books.deposits + w.books.claims - w.books.withdrawals - TWO_128 * w.books.wraps
  }

  ghost predicate BalancesInRange(w: World) {
    forall user :: -TWO_127 <= Held(w.store, user) < TWO_127 && (w.books.wraps == 0 ==> 0 <= Held(w.store, user))
  }

  /** Grants are positive, what is pending is the last grant, and claims never outrun grants. */
  ghost predicate GrantsCovered(w: World) {
    && w.books.claims + Total(w.store.data, Grants) <= w.books.grants
    && forall user :: (Persistent, Grant(user)) in w.store.data ==>
         0 < Pending(w.store, user) < TWO_127 && user in w.books.lastGrant && w.books.lastGrant[user] == Pending(w.store, user)
  }

  ghost predicate Sound(w: World) {
    w.store.Valid() && Conserved(w) && BalancesInRange(w) && GrantsCovered(w)
  }

  function Wraps(s: VaultStore, call: Call): nat {
    match call
    case DoDeposit(user, amount) => if Overflows(Held(s, user), amount) then 1 else 0
    case DoClaim(user) => if Overflows(Held(s, user), Pending(s, user)) then 1 else 0
    case _ => 0
  }

  /** What a successful call adds to all balances together, apart from wrapping. */
  function Inflow(s: VaultStore, call: Call): int {
    match call
    case DoDeposit(_, amount) => amount
    case DoWithdraw(_, amount) => 0 - (amount as int)
    case DoClaim(user) => Pending(s, user)
    case _ => 0
  }

  /** What a successful call adds to all pending grants together. */
  function GrantFlow(s: VaultStore, call: Call): int {
    match call
    case DoGrant(user, amount) => amount - Pending(s, user)
    case DoClaim(user) => -Pending(s, user)
    case _ => 0
  }

  lemma CallMovesTotals(s: VaultStore, call: Call)
    ensures Total(DataAfter(s, call), Balances) == Total(s.data, Balances) + Inflow(s, call) - TWO_128 * Wraps(s, call)
    ensures Total(DataAfter(s, call), Grants) == Total(s.data, Grants) + GrantFlow(s, call)
  {
    hide Total;
    match call {
      case DoDeposit(user, amount) =>
        TotalPut(s.data, Balances, (Persistent, Balance(user)), Wrapped(Held(s, user), amount));
        TotalSees(s.data, DataAfter(s, call), Grants);
      case DoWithdraw(user, amount) =>
        TotalPut(s.data, Balances, (Persistent, Balance(user)), Held(s, user) - amount);
        TotalSees(s.data, DataAfter(s, call), Grants);
      case DoGrant(user, amount) =>
        TotalPut(s.data, Grants, (Persistent, Grant(user)), amount);
        TotalSees(s.data, DataAfter(s, call), Balances);
      case DoClaim(user) =>
        var without := s.data - {(Persistent, Grant(user))};
        TotalWithout(s.data, Grants, (Persistent, Grant(user)));
        TotalSees(s.data, without, Balances);
        TotalPut(without, Balances, (Persistent, Balance(user)), Wrapped(Held(s, user), Pending(s, user)));
        TotalSees(without, DataAfter(s, call), Grants);
      case DoConsumeNonce(user, nonce) =>
        TotalSees(s.data, DataAfter(s, call), Balances);
        TotalSees(s.data, DataAfter(s, call), Grants);
      case _ =>
    }
  }

  lemma CallConserves(w: World, auth: set<Address>, call: Call, checked: bool)
    requires Sound(w) && Execute(w.store, auth, call, checked).Ok?
    ensures Conserved(Next(w, Calls(auth, call), checked))
    ensures
      var w' := Next(w, Calls(auth, call), checked);
      w'.books.claims + Total(w'.store.data, Grants) <= w'.books.grants
  {
    assert w.books.claims + Total(w.store.data, Grants) <= w.books.grants;
    CallEffect(w.store, auth, call, checked);
    CallMovesTotals(w.store, call);
    RecordedFlows(w.books, w.store, call);
    if call.DoGrant? || call.DoClaim? {
      PendingIsCounted(w, call.user);
    }
    CallIsNext(w, auth, call, checked);
    hide Next, Execute, Total, DataAfter, Store.Valid, BalancesInRange, Record, Wraps, GrantsCovered, Inflow, GrantFlow;
    var before, more := w.books.wraps, Wraps(w.store, call);
    assert TWO_128 * (before + more) == TWO_128 * before + TWO_128 * more;
  }

  lemma CallIsNext(w: World, auth: set<Address>, call: Call, checked: bool)
    requires Execute(w.store, auth, call, checked).Ok?
    ensures Next(w, Calls(auth, call), checked)
         == World(Execute(w.store, auth, call, checked).value.1, Record(w.books, w.store, call))
  {
  }

  /** The books take down what the call moved. */
  lemma RecordedFlows(books: Books, s: VaultStore, call: Call)
    ensures
      var books' := Record(books, s, call);
      && books'.deposits + books'.claims - books'.withdrawals
         == books.deposits + books.claims - books.withdrawals + Inflow(s, call)
      && books'.wraps == books.wraps + Wraps(s, call)
      && (books'.claims - books.claims) + GrantFlow(s, call)
         == (books'.grants - books.grants) - (if call.DoGrant? then Pending(s, call.user) else 0)
  {
  }

  lemma PendingIsCounted(w: World, user: Address)
    requires GrantsCovered(w)
    ensures Pending(w.store, user) >= 0
  {
  }

  lemma CallKeepsRange(w: World, auth: set<Address>, call: Call, checked: bool)
    requires Sound(w) && Execute(w.store, auth, call, checked).Ok?
    ensures BalancesInRange(Next(w, Calls(auth, call), checked))
    ensures checked ==> Next(w, Calls(auth, call), checked).books.wraps == w.books.wraps
  {
    var s := w.store;
    CallEffect(s, auth, call, checked);
    CallSucceedsWithin(s, auth, call, checked);
    RecordedFlows(w.books, s, call);
    hide Execute, Total, Store.Valid, Conserved, DataAfter, Record, GrantsCovered;
    var w' := Next(w, Calls(auth, call), checked);
    forall user
      ensures -TWO_127 <= Held(w'.store, user) < TWO_127 && (w'.books.wraps == 0 ==> 0 <= Held(w'.store, user))
    {
      HeldFollows(s, w'.store, call, user);
    }
  }

  lemma HeldFollows(s: VaultStore, s': VaultStore, call: Call, user: Address)
    requires s'.data == DataAfter(s, call)
    ensures Held(s', user) == HeldAfter(s, call, user)
  {
  }

  /** A user's balance after a successful call: only that user's own deposit, withdrawal or claim changes it. */
  function HeldAfter(s: VaultStore, call: Call, user: Address): int {
    match call
    case DoDeposit(u, amount) => if u == user then Wrapped(Held(s, u), amount) else Held(s, user)
    case DoWithdraw(u, amount) => if u == user then Held(s, u) - amount else Held(s, user)
    case DoClaim(u) => if u == user then Wrapped(Held(s, u), Pending(s, u)) else Held(s, user)
    case _ => Held(s, user)
  }

  /** What success says about the amounts involved. */
  lemma CallSucceedsWithin(s: VaultStore, auth: set<Address>, call: Call, checked: bool)
    requires s.Valid() && Execute(s, auth, call, checked).Ok?
    ensures
      match call
      case DoDeposit(user, amount) => amount > 0
      case DoWithdraw(user, amount) => 0 < amount <= Held(s, user)
      case DoGrant(user, amount) => amount > 0
      case DoClaim(user) => Pending(s, user) != 0
      case DoConsumeNonce(user, nonce) => nonce > OrZero(s.Read(Temporary, Nonce(user)))
      case _ => true
    ensures checked ==> Wraps(s, call) == 0
  {
    match call {
      case DoDeposit(user, amount) => CreditEffect(s, user, amount, checked, Done);
      case DoWithdraw(user, amount) => WithdrawEffect(s, auth, user, amount);
      case DoGrant(user, amount) => GrantEffect(s, auth, user, amount);
      case DoClaim(user) => ClaimEffect(s, auth, user, checked);
      case DoConsumeNonce(user, nonce) => NonceEffect(s, auth, user, nonce);
      case _ =>
    }
  }

  lemma CallKeepsGrants(w: World, auth: set<Address>, call: Call, checked: bool)
    requires Sound(w) && Execute(w.store, auth, call, checked).Ok?
    ensures GrantsCovered(Next(w, Calls(auth, call), checked))
  {
    CallConserves(w, auth, call, checked);
    CallEffect(w.store, auth, call, checked);
    CallSucceedsWithin(w.store, auth, call, checked);
    hide Execute, Total, Store.Valid, Conserved, BalancesInRange, DataAfter;
    var w' := Next(w, Calls(auth, call), checked);
    forall user | (Persistent, Grant(user)) in w'.store.data
      ensures 0 < Pending(w'.store, user) < TWO_127 && user in w'.books.lastGrant
      ensures w'.books.lastGrant[user] == Pending(w'.store, user)
    {
      PendingFollows(w.store, w'.store, call, user);
    }
  }

  /** A pending grant after a successful call: the amount just granted, or what was pending before. */
  lemma PendingFollows(s: VaultStore, s': VaultStore, call: Call, user: Address)
    requires s'.data == DataAfter(s, call)
    ensures
      var slot := (Persistent, Grant(user));
      if call.DoGrant? && call.user == user then slot in s'.data && Pending(s', user) == call.amount
      else if call.DoClaim? && call.user == user then slot !in s'.data
      else (slot in s'.data <==> slot in s.data) && Pending(s', user) == Pending(s, user)
  {
  }

  /** Events that are no calls change no balance and no grant. */
  lemma QuietEvents(w: World, e: Event, checked: bool)
    requires w.store.Valid() && !e.Calls?
    ensures
      var w' := Next(w, e, checked);
      forall slot: Slot :: slot.0 == Persistent ==>
        && (slot in w.store.data <==> slot in w'.store.data)
        && (slot in w.store.data ==> w.store.data[slot] == w'.store.data[slot])
  {
  }

  lemma NextIsSound(w: World, e: Event, checked: bool)
    requires Sound(w)
    ensures Sound(Next(w, e, checked))
    ensures checked ==> Next(w, e, checked).books.wraps == w.books.wraps
  {
    NextKeepsValid(w, e, checked);
    match e {
      case Calls(auth, call) =>
        if Execute(w.store, auth, call, checked).Ok? {
          CallConserves(w, auth, call, checked);
          CallKeepsRange(w, auth, call, checked);
          CallKeepsGrants(w, auth, call, checked);
        }
      case _ => QuietEventsAreSound(w, e, checked);
    }
  }

  lemma QuietBooks(w: World, e: Event, checked: bool)
    requires !e.Calls?
    ensures
      var books, books' := w.books, Next(w, e, checked).books;
      && books'.deposits == books.deposits && books'.withdrawals == books.withdrawals && books'.wraps == books.wraps
      && books'.claims == books.claims && books'.grants == books.grants && books'.lastGrant == books.lastGrant
  {
  }

  lemma QuietEventsAreSound(w: World, e: Event, checked: bool)
    requires Sound(w) && !e.Calls?
    ensures Sound(Next(w, e, checked)) && Next(w, e, checked).books.wraps == w.books.wraps
  {
    hide Next, Store.Valid, Total;
    NextKeepsValid(w, e, checked);
    QuietEvents(w, e, checked);
    QuietBooks(w, e, checked);
    var w' := Next(w, e, checked);
    TotalSees(w.store.data, w'.store.data, Balances);
    TotalSees(w.store.data, w'.store.data, Grants);
    forall user
      ensures Held(w'.store, user) == Held(w.store, user) && Pending(w'.store, user) == Pending(w.store, user)
    {
      assert Counts(Balances, (Persistent, Balance(user))) && Counts(Grants, (Persistent, Grant(user)));
    }
  }

  // ---------------------------------------------------------------------------
  // The lifetime of a grant
  // ---------------------------------------------------------------------------

  /** Since the last grant nobody restored or extended the pending grant. */
  ghost predicate Untouched(w: World, user: Address) {
    (Persistent, Grant(user)) in w.store.data && user !in w.books.restored && user !in w.books.extended
  }

  /** An untouched grant ends exactly 14 days after it was last given; a restored one ends no later than a new one. */
  ghost predicate GrantTimed(w: World, user: Address) {
    var t := Own(Persistent, Grant(user));
    (Persistent, Grant(user)) in w.store.data ==>
      && t in w.store.until
      && (user !in w.books.extended ==> w.store.until[t] <= w.store.clock + GRANT_TTL)
      && (Untouched(w, user) ==>
            && user in w.books.grantedAt && w.books.grantedAt[user] <= w.store.clock
            && w.store.until[t] == w.books.grantedAt[user] + GRANT_TTL)
  }

  lemma CallKeepsGrantTimed(w: World, auth: set<Address>, call: Call, checked: bool, user: Address)
    requires w.store.Valid() && GrantTimed(w, user) && Execute(w.store, auth, call, checked).Ok?
    ensures GrantTimed(Next(w, Calls(auth, call), checked), user)
  {
    CallEffect(w.store, auth, call, checked);
    if call.DoGrant? && call.user == user {
      GrantEffect(w.store, auth, call.user, call.amount);
      hide GiveGrant, Store.Valid;
    } else {
      CallIsNext(w, auth, call, checked);
      OtherCallsKeepGrant(w.store, call, user);
      if call != DoClaim(user) {
        RecordKeepsGrant(w.books, w.store, call, user);
      }
      hide Execute, Next, Record, DataAfter, Timers, Store.Valid;
    }
  }

  /** Only a grant to the user or a claim of theirs touches the pending grant. */
  lemma OtherCallsKeepGrant(s: VaultStore, call: Call, user: Address)
    requires !(call.DoGrant? && call.user == user)
    ensures call == DoClaim(user) ==> (Persistent, Grant(user)) !in DataAfter(s, call)
    ensures call != DoClaim(user) ==>
      && Own(Persistent, Grant(user)) !in Timers(call)
      && ((Persistent, Grant(user)) in DataAfter(s, call) <==> (Persistent, Grant(user)) in s.data)
  {
  }

  lemma RecordKeepsGrant(books: Books, s: VaultStore, call: Call, user: Address)
    requires !(call.DoGrant? && call.user == user) && call != DoClaim(user)
    ensures
      var books' := Record(books, s, call);
      && (user in books'.extended <==> user in books.extended) && (user in books'.restored <==> user in books.restored)
      && (user in books'.grantedAt <==> user in books.grantedAt)
      && (user in books.grantedAt ==> books'.grantedAt[user] == books.grantedAt[user])
  {
  }

  lemma NextKeepsGrantTimed(w: World, e: Event, checked: bool, user: Address)
    requires w.store.Valid() && GrantTimed(w, user)
    ensures GrantTimed(Next(w, e, checked), user)
  {
    match e {
      case Calls(auth, call) =>
        if Execute(w.store, auth, call, checked).Ok? {
          CallKeepsGrantTimed(w, auth, call, checked, user);
        }
      case _ =>
    }
  }

  // ---------------------------------------------------------------------------
  // Nonces
  // ---------------------------------------------------------------------------

  ghost predicate Increasing(nonces: seq<int>) {
    forall i, j :: 0 <= i < j < |nonces| ==> nonces[i] < nonces[j]
  }

  /** The entry holds the last nonce accepted in its lifetime, and lives at least a day from then. */
  ghost predicate NonceFresh(w: World, user: Address) {
    var t := Own(Temporary, Nonce(user));
    && ((Temporary, Nonce(user)) in w.store.data <==> user in w.books.accepted)
    && (user in w.books.accepted ==>
          var nonces := w.books.accepted[user];
          && nonces != [] && 0 < nonces[0] && Increasing(nonces)
          && nonces[|nonces| - 1] == w.store.data[(Temporary, Nonce(user))]
          && user in w.books.acceptedAt && t in w.store.until
          && w.books.acceptedAt[user] + LEDGERS_PER_DAY <= w.store.until[t])
  }

  lemma AcceptedNonceIsFresh(w: World, auth: set<Address>, user: Address, nonce: u64, checked: bool)
    requires w.store.Valid() && NonceFresh(w, user) && Execute(w.store, auth, DoConsumeNonce(user, nonce), checked).Ok?
    ensures NonceFresh(Next(w, Calls(auth, DoConsumeNonce(user, nonce)), checked), user)
  {
    var call := DoConsumeNonce(user, nonce);
    NonceEffect(w.store, auth, user, nonce);
    IncreasingGrows(Accepted(w.books, user), nonce);
    hide Store.Valid, ConsumeNonce, Increasing;
    var nonces := Accepted(Next(w, Calls(auth, call), checked).books, user);
    assert nonces == Accepted(w.books, user) + [nonce as int];
  }

  lemma CallKeepsNonceFresh(w: World, auth: set<Address>, call: Call, checked: bool, user: Address)
    requires w.store.Valid() && NonceFresh(w, user) && Execute(w.store, auth, call, checked).Ok?
    ensures NonceFresh(Next(w, Calls(auth, call), checked), user)
  {
    if call.DoConsumeNonce? && call.user == user {
      AcceptedNonceIsFresh(w, auth, user, call.nonce, checked);
    } else {
      CallEffect(w.store, auth, call, checked);
      CallIsNext(w, auth, call, checked);
      OtherCallsKeepNonce(w.store, call, user);
      RecordKeepsNonces(w.books, w.store, call, user);
      hide Execute, Next, Record, DataAfter, Timers, Store.Valid, Increasing;
    }
  }

  /** Only a nonce call of the user touches the entry or its record. */
  lemma OtherCallsKeepNonce(s: VaultStore, call: Call, user: Address)
    requires !(call.DoConsumeNonce? && call.user == user)
    ensures Own(Temporary, Nonce(user)) !in Timers(call)
    ensures
      var slot, data := (Temporary, Nonce(user)), DataAfter(s, call);
      (slot in data <==> slot in s.data) && (slot in s.data ==> data[slot] == s.data[slot])
  {
  }

  lemma RecordKeepsNonces(books: Books, s: VaultStore, call: Call, user: Address)
    requires !(call.DoConsumeNonce? && call.user == user)
    ensures
      var books' := Record(books, s, call);
      && (user in books'.accepted <==> user in books.accepted) && Accepted(books', user) == Accepted(books, user)
      && (user in books'.acceptedAt <==> user in books.acceptedAt) && AcceptedAt(books', user) == AcceptedAt(books, user)
  {
  }

  lemma IncreasingGrows(nonces: seq<int>, nonce: int)
    requires Increasing(nonces) && (nonces != [] ==> nonces[|nonces| - 1] < nonce)
    ensures Increasing(nonces + [nonce])
  {
  }

  lemma NextKeepsNonceFresh(w: World, e: Event, checked: bool, user: Address)
    requires w.store.Valid() && NonceFresh(w, user)
    ensures NonceFresh(Next(w, e, checked), user)
  {
    match e {
      case Calls(auth, call) =>
        if Execute(w.store, auth, call, checked).Ok? {
          CallKeepsNonceFresh(w, auth, call, checked, user);
        }
      case _ =>
    }
  }

  // ---------------------------------------------------------------------------
  // Over every run
  // ---------------------------------------------------------------------------

  lemma DeployedIsSound(w: World)
    requires Deployed(w)
    ensures Sound(w)
    ensures forall user :: GrantTimed(w, user) && NonceFresh(w, user)
  {
    assert SlotsOf(w.store.data, Balances) == {} && SlotsOf(w.store.data, Grants) == {};
  }

  lemma {:induction false} ReachedIsSound(w: World, events: seq<Event>, checked: bool)
    requires Deployed(w)
    ensures Sound(Reach(w, events, checked))
    ensures checked ==> Reach(w, events, checked).books.wraps == 0
    ensures forall user :: GrantTimed(Reach(w, events, checked), user) && NonceFresh(Reach(w, events, checked), user)
  {
    DeployedIsSound(w);
    hide Sound, GrantTimed, NonceFresh, Next, Deployed;
    if events != [] {
      var before, e := Reach(w, events[..|events| - 1], checked), events[|events| - 1];
      ReachedIsSound(w, events[..|events| - 1], checked);
      SoundIsValid(before);
      NextIsSound(before, e, checked);
      forall user
        ensures GrantTimed(Reach(w, events, checked), user) && NonceFresh(Reach(w, events, checked), user)
      {
        NextKeepsGrantTimed(before, e, checked, user);
        NextKeepsNonceFresh(before, e, checked, user);
      }
    } else {
      DeployedHasNoWraps(w);
    }
  }

  lemma SoundIsValid(w: World)
    requires Sound(w)
    ensures w.store.Valid()
  {
  }

  lemma DeployedHasNoWraps(w: World)
    requires Deployed(w)
    ensures w.books.wraps == 0
  {
  }

  /**
   * Over every run of calls, closing ledgers, archival, restores and extensions: live and archived balances add up to
   * deposits plus claims minus withdrawals exactly when no addition ever wrapped; then no balance is negative; and a
   * checked build never wraps.
   */
  lemma FundsAreConserved(w: World, events: seq<Event>, checked: bool)
    requires Deployed(w)
    ensures
      var end := Reach(w, events, checked);
      && (Total(end.store.data, Balances) == end.books.deposits + end.books.claims - end.books.withdrawals
          <==> end.books.wraps == 0)
      && (end.books.wraps == 0 ==> forall user :: Held(end.store, user) >= 0)
      && (checked ==> end.books.wraps == 0)
  {
    ReachedIsSound(w, events, checked);
  }

  /** A new vault with the given admin and lifetime of the instance. */
  function NewVault(admin: Address, instanceUntil: nat): World {
    World(Store(0, 1, map[(Instance, Admin) := admin], map[Shared := instanceUntil]), NO_BOOKS)
  }

  lemma NewVaultIsDeployed(admin: Address, instanceUntil: nat)
    requires instanceUntil <= MAX_PERSISTENT_TTL
    ensures Deployed(NewVault(admin, instanceUntil))
  {
  }

  /** In a release build two deposits can make a balance negative. */
  lemma ReleaseBuildCanLoseFunds(admin: Address, user: Address)
    ensures
      var w := NewVault(admin, 1);
      var events := [Calls({}, DoDeposit(user, TWO_127 - 1)), Calls({}, DoDeposit(user, 1))];
      Deployed(w) && Held(Reach(w, events, false).store, user) == -TWO_127
  {
    var w := NewVault(admin, 1);
    var first, second := Calls({}, DoDeposit(user, TWO_127 - 1)), Calls({}, DoDeposit(user, 1));
    NewVaultIsDeployed(admin, 1);
    ReachTwo(w, first, second, false);
    CreditEffect(w.store, user, TWO_127 - 1, false, Done);
    NextKeepsValid(w, first, false);
    FreshBalanceIsLive(w.store, user, TWO_127 - 1);
    hide Reach, Credit, Store.Valid, Deployed;
    CreditEffect(Next(w, first, false).store, user, 1, false, Done);
  }

  lemma FreshBalanceIsLive(s: VaultStore, user: Address, amount: int)
    requires s.Valid() && (Persistent, Balance(user)) !in s.data
    ensures
      var outcome := Credit(s, user, amount, false, Done);
      outcome.Ok? ==> !outcome.value.1.IsArchived(Persistent, Balance(user))
  {
  }

  /** A balance changes only by its owner's own deposit, withdrawal or claim, whoever calls and whatever happens else. */
  lemma OnlyOwnCallsMoveBalance(w: World, e: Event, checked: bool, user: Address)
    requires w.store.Valid()
    ensures Held(Next(w, e, checked).store, user) ==
      if e.Calls? && Execute(w.store, e.auth, e.call, checked).Ok? then HeldAfter(w.store, e.call, user)
      else Held(w.store, user)
  {
    match e {
      case Calls(auth, call) =>
        if Execute(w.store, auth, call, checked).Ok? {
          CallEffect(w.store, auth, call, checked);
        }
      case _ => QuietEvents(w, e, checked);
    }
  }

  /** Over every run, claims pay exactly the last grant to that user, and never more than was granted in all. */
  lemma ClaimsAreCovered(w: World, events: seq<Event>, checked: bool, auth: set<Address>, user: Address)
    requires Deployed(w)
    ensures
      var end := Reach(w, events, checked);
      && end.books.claims <= end.books.grants
      && var outcome := Execute(end.store, auth, DoClaim(user), checked);
         outcome.Ok? ==> user in end.books.lastGrant && outcome.value.0 == Amount(end.books.lastGrant[user])
                         && user in auth && (Persistent, Grant(user)) !in outcome.value.1.data
  {
    var end := Reach(w, events, checked);
    ReachedIsSound(w, events, checked);
    PendingIsPositive(end);
    ClaimEffect(end.store, auth, user, checked);
  }

  lemma PendingIsPositive(w: World)
    requires Sound(w)
    ensures Total(w.store.data, Grants) >= 0
  {
    SumIsPositive(w.store.data, SlotsOf(w.store.data, Grants));
    forall slot | slot in SlotsOf(w.store.data, Grants)
      ensures w.store.data[slot] >= 0
    {
      assert slot == (Persistent, Grant(slot.1.user));
    }
  }

  lemma {:induction false} SumIsPositive(data: map<Slot, int>, slots: set<Slot>)
    requires slots <= data.Keys
    ensures (forall slot :: slot in slots ==> data[slot] >= 0) ==> SumOver(data, slots) >= 0
  {
    if slots != {} {
      var slot :| slot in slots;
      SumTakes(data, slots, slot);
      SumIsPositive(data, slots - {slot});
    }
  }

  /**
   * In every reachable state with a live instance, an untouched pending grant can be claimed within 14 days of being
   * given, and not after: the claim fails for good unless the grant is restored.
   */
  lemma UntouchedGrantLastsFourteenDays(w: World, events: seq<Event>, checked: bool, auth: set<Address>, user: Address)
    requires Deployed(w) && Untouched(Reach(w, events, checked), user)
    ensures
      var end := Reach(w, events, checked);
      && user in end.books.grantedAt && Own(Persistent, Grant(user)) in end.store.until
      && end.store.until[Own(Persistent, Grant(user))] == end.books.grantedAt[user] + GRANT_TTL
      && (Execute(end.store, auth, DoClaim(user), checked).Ok? <==>
            && !end.store.IsArchived(Instance, Admin)
            && end.store.clock < end.books.grantedAt[user] + GRANT_TTL
            && user in auth && !end.store.IsArchived(Persistent, Balance(user))
            && !(checked && Overflows(Held(end.store, user), Pending(end.store, user))))
  {
    var end := Reach(w, events, checked);
    ReachedIsSound(w, events, checked);
    SoundIsValid(end);
    assert GrantTimed(end, user);
    hide Reach, Deployed, Sound, Execute, GrantTimed, Untouched;
    TimedGrantIsClaimable(end, auth, user, checked);
  }

  lemma TimedGrantIsClaimable(w: World, auth: set<Address>, user: Address, checked: bool)
    requires w.store.Valid() && GrantsCovered(w) && GrantTimed(w, user) && Untouched(w, user)
    ensures user in w.books.grantedAt && Own(Persistent, Grant(user)) in w.store.until
    ensures w.store.until[Own(Persistent, Grant(user))] == w.books.grantedAt[user] + GRANT_TTL
    ensures Execute(w.store, auth, DoClaim(user), checked).Ok? <==>
      && !w.store.IsArchived(Instance, Admin)
      && w.store.clock < w.books.grantedAt[user] + GRANT_TTL
      && user in auth && !w.store.IsArchived(Persistent, Balance(user))
      && !(checked && Overflows(Held(w.store, user), Pending(w.store, user)))
  {
    assert Pending(w.store, user) != 0;
    ClaimEffect(w.store, auth, user, checked);
    hide Claim, Store.Valid, GrantsCovered;
  }

  /** A grant is documented to expire after 14 days; restored, it can be claimed on the fifteenth. */
  lemma RestoredGrantIsClaimedLate(admin: Address, user: Address, amount: i128)
    requires amount > 0
    ensures
      var events := [Calls({admin}, DoGrant(user, amount)), Closes(15 * LEDGERS_PER_DAY),
                     Restores(Persistent, Grant(user)), Restores(Instance, Admin)];
      && Deployed(NewVault(admin, 1))
      && Execute(Reach(NewVault(admin, 1), events, true).store, {user}, DoClaim(user), true).Ok?
  {
    var w := NewVault(admin, 1);
    var given, closed := Calls({admin}, DoGrant(user, amount)), Closes(15 * LEDGERS_PER_DAY);
    var back, woken := Restores(Persistent, Grant(user)), Restores(Instance, Admin);
    NewVaultIsDeployed(admin, 1);
    ReachTwo(w, given, closed, true);
    ReachFour(w, given, closed, back, woken, true);
    GrantEffect(w.store, {admin}, user, amount);
    NextKeepsValid(w, given, true);
    var s := Next(w, given, true).store;
    assert Own(Persistent, Balance(user)) !in s.until;
    RestoredGrantIsClaimable(s, user, 15 * LEDGERS_PER_DAY);
  }

  /** However long after, an archived grant that is restored, in a restored instance, can be claimed. */
  lemma RestoredGrantIsClaimable(s: VaultStore, user: Address, ledgers: nat)
    requires s.Valid() && Pending(s, user) > 0 && Own(Persistent, Balance(user)) !in s.until
    requires (Persistent, Balance(user)) !in s.data && Pending(s, user) < TWO_127
    ensures
      var later := s.Advance(ledgers).Restored(Persistent, Grant(user)).Restored(Instance, Admin);
      Execute(later, {user}, DoClaim(user), true).Ok?
  {
    var later := s.Advance(ledgers).Restored(Persistent, Grant(user)).Restored(Instance, Admin);
    BothRestored(s, user, ledgers);
    hide Store.Valid, Store.Advance, Store.Restored, Execute, Store.IsArchived;
    ClaimableNow(later, user);
  }

  lemma ClaimableNow(s: VaultStore, user: Address)
    requires s.Valid() && 0 < Pending(s, user) < TWO_127 && Held(s, user) == 0
    requires !s.IsArchived(Instance, Admin) && !s.IsArchived(Persistent, Grant(user))
    requires !s.IsArchived(Persistent, Balance(user))
    ensures Execute(s, {user}, DoClaim(user), true).Ok?
  {
    ClaimEffect(s, {user}, user, true);
  }

  lemma BothRestored(s: VaultStore, user: Address, ledgers: nat)
    requires s.Valid() && (Persistent, Grant(user)) in s.data && Own(Persistent, Balance(user)) !in s.until
    ensures
      var later := s.Advance(ledgers).Restored(Persistent, Grant(user)).Restored(Instance, Admin);
      && later.Valid()
      && later.Read(Persistent, Grant(user)) == s.Read(Persistent, Grant(user))
      && later.Read(Persistent, Balance(user)) == s.Read(Persistent, Balance(user))
      && !later.IsArchived(Persistent, Grant(user)) && !later.IsArchived(Instance, Admin)
      && !later.IsArchived(Persistent, Balance(user))
  {
    var closed := s.Advance(ledgers);
    AdvanceKeepsValid(s, ledgers);
    RestoredKeepsValid(closed, Persistent, Grant(user));
    var back := closed.Restored(Persistent, Grant(user));
    RestoredKeepsValid(back, Instance, Admin);
  }

  /**
   * In every reachable state with a live instance: a call is accepted exactly when its nonce exceeds everything
   * accepted in the present lifetime, so none is accepted twice in it.
   */
  lemma NoncesAreFresh(w: World, events: seq<Event>, checked: bool, auth: set<Address>, user: Address, nonce: u64)
    requires Deployed(w)
    ensures
      var end := Reach(w, events, checked);
      var nonces := Accepted(end.books, user);
      && Increasing(nonces)
      && (Execute(end.store, auth, DoConsumeNonce(user, nonce), checked).Ok? <==>
            && !end.store.IsArchived(Instance, Admin) && user in auth && nonce > 0
            && forall i :: 0 <= i < |nonces| ==> nonces[i] < nonce)
  {
    ReachedIsSound(w, events, checked);
    var end := Reach(w, events, checked);
    SoundIsValid(end);
    hide Reach, Deployed, Sound, Execute;
    FreshIsAboveAll(end, auth, user, nonce, checked);
  }

  lemma FreshIsAboveAll(w: World, auth: set<Address>, user: Address, nonce: u64, checked: bool)
    requires w.store.Valid() && NonceFresh(w, user)
    ensures
      var nonces := Accepted(w.books, user);
      && Increasing(nonces)
      && (Execute(w.store, auth, DoConsumeNonce(user, nonce), checked).Ok? <==>
            && !w.store.IsArchived(Instance, Admin) && user in auth && nonce > 0
            && forall i :: 0 <= i < |nonces| ==> nonces[i] < nonce)
  {
    NonceEffect(w.store, auth, user, nonce);
    hide Store.Valid, ConsumeNonce;
    var nonces := Accepted(w.books, user);
    if nonces != [] {
      AboveLast(nonces, nonce);
    }
  }

  lemma AboveLast(nonces: seq<int>, nonce: int)
    requires Increasing(nonces) && nonces != []
    ensures nonces[0] <= nonces[|nonces| - 1]
    ensures nonces[|nonces| - 1] < nonce <==> forall i :: 0 <= i < |nonces| ==> nonces[i] < nonce
  {
  }

  /** The last accepted call of the user is at most `gap` ledgers old. */
  predicate CalledLately(w: World, user: Address, gap: nat) {
    w.store.clock <= AcceptedAt(w.books, user) + gap
  }

  /** After each event of the run the last accepted call of the user is at most `gap` ledgers old. */
  ghost predicate CalledWithin(w: World, events: seq<Event>, checked: bool, user: Address, gap: nat) {
    forall i :: 0 <= i <= |events| ==> CalledLately(Reach(w, events[..i], checked), user, gap)
  }

  /**
   * Over every run in which accepted calls are less than 17 280 ledgers apart, the lifetime is unbroken: whatever was
   * accepted before the run is on record after it, and is refused.
   */
  lemma DailyCallsKeepTheLifetime(w: World, past: seq<Event>, more: seq<Event>, checked: bool, user: Address,
                                  gap: nat)
    requires Deployed(w) && gap < LEDGERS_PER_DAY
    requires user in Reach(w, past, checked).books.accepted
    requires CalledWithin(Reach(w, past, checked), more, checked, user, gap)
    ensures
      var before := Reach(w, past, checked);
      var after := Reach(before, more, checked);
      && user in after.books.accepted && Accepted(before.books, user) <= Accepted(after.books, user)
      && Increasing(Accepted(after.books, user))
      && forall auth, nonce: u64 :: nonce as int in Accepted(before.books, user) ==>
           Execute(after.store, auth, DoConsumeNonce(user, nonce), checked).Err?
  {
    var before := Reach(w, past, checked);
    var after := Reach(before, more, checked);
    ReachedIsSound(w, past, checked);
    SoundIsValid(before);
    hide Sound, NonceFresh, Increasing, Deployed, Execute, CalledWithin;
    RecordStands(before, more, checked, user, gap);
    forall auth, nonce: u64 | nonce as int in Accepted(before.books, user)
      ensures Execute(after.store, auth, DoConsumeNonce(user, nonce), checked).Err?
    {
      var i :| 0 <= i < |Accepted(before.books, user)| && Accepted(before.books, user)[i] == nonce;
      assert Accepted(after.books, user)[i] == nonce;
      FreshIsAboveAll(after, auth, user, nonce, checked);
    }
    FreshIsAboveAll(after, {}, user, 0, checked);
  }

  lemma {:induction false} RecordStands(w: World, events: seq<Event>, checked: bool, user: Address, gap: nat)
    requires w.store.Valid() && NonceFresh(w, user) && user in w.books.accepted
    requires CalledWithin(w, events, checked, user, gap) && gap < LEDGERS_PER_DAY
    ensures
      var after := Reach(w, events, checked);
      && after.store.Valid() && NonceFresh(after, user)
      && user in after.books.accepted && Accepted(w.books, user) <= Accepted(after.books, user)
  {
    hide NonceFresh, Next, CalledWithin, CalledLately;
    if events != [] {
      var n := |events| - 1;
      CalledBefore(w, events, checked, user, gap);
      RecordStands(w, events[..n], checked, user, gap);
      var near := Reach(w, events[..n], checked);
      NextKeepsValid(near, events[n], checked);
      NextKeepsNonceFresh(near, events[n], checked, user);
      if events[n].Closes? {
        ClosingKeepsDate(near, events[n], checked, user, gap);
      }
      LifetimeStands(near, events[n], checked, user);
    }
  }

  lemma CalledBefore(w: World, events: seq<Event>, checked: bool, user: Address, gap: nat)
    requires events != [] && CalledWithin(w, events, checked, user, gap)
    ensures
      var n := |events| - 1;
      && CalledWithin(w, events[..n], checked, user, gap)
      && CalledLately(Next(Reach(w, events[..n], checked), events[n], checked), user, gap)
  {
    hide CalledLately, Next;
    var n := |events| - 1;
    assert forall i :: 0 <= i <= n ==> events[..n][..i] == events[..i];
    assert events[..n + 1] == events;
  }

  /** Closing ledgers is no call, so the last one stays as old as it was. */
  lemma ClosingKeepsDate(w: World, e: Event, checked: bool, user: Address, gap: nat)
    requires e.Closes? && CalledLately(Next(w, e, checked), user, gap)
    ensures w.store.clock + e.ledgers <= AcceptedAt(w.books, user) + gap
  {
  }

  lemma LifetimeStands(w: World, e: Event, checked: bool, user: Address)
    requires w.store.Valid() && NonceFresh(w, user) && user in w.books.accepted
    requires e.Closes? ==> w.store.clock + e.ledgers < AcceptedAt(w.books, user) + LEDGERS_PER_DAY
    ensures
      var after := Next(w, e, checked);
      user in after.books.accepted && Accepted(w.books, user) <= Accepted(after.books, user)
  {
    hide Increasing, Execute;
  }

  // A user who calls every 17 280 ledgers: each call finds the entry at or above the threshold, and none extends it.

  /** After the first call, `n` more, a day apart. */
  function Habit(user: Address, n: nat): seq<Event>
    requires n < 30
  {
    if n == 0 then []
    else Habit(user, n - 1) + [Closes(LEDGERS_PER_DAY), Calls({user}, DoConsumeNonce(user, n + 1))]
  }

  /** The vault after the call of day `n`; the entry still ends on day 30. */
  ghost predicate OnDay(w: World, user: Address, n: nat) {
    var t := Own(Temporary, Nonce(user));
    && w.store.Valid() && w.store.clock == n * LEDGERS_PER_DAY
    && Shared in w.store.until && w.store.until[Shared] > 30 * LEDGERS_PER_DAY
    && w.store.Read(Temporary, Nonce(user)) == Some(n + 1)
    && t in w.store.until && w.store.until[t] == 30 * LEDGERS_PER_DAY
    && user in w.books.accepted && AcceptedAt(w.books, user) == w.store.clock
  }

  lemma FirstDay(admin: Address, user: Address, checked: bool)
    ensures
      var w := NewVault(admin, 6_000_000);
      Deployed(w) && OnDay(Reach(w, [Calls({user}, DoConsumeNonce(user, 1))], checked), user, 0)
  {
    var w, first := NewVault(admin, 6_000_000), Calls({user}, DoConsumeNonce(user, 1));
    NewVaultIsDeployed(admin, 6_000_000);
    ReachOne(w, first, checked);
    NonceEffect(w.store, {user}, user, 1);
    FirstNonceTimer(w.store, {user}, user, 1);
    NextKeepsValid(w, first, checked);
    hide Store.Valid, ConsumeNonce, Reach;
  }

  lemma ReachOne(w: World, e: Event, checked: bool)
    ensures Reach(w, [e], checked) == Next(w, e, checked)
  {
    assert [e][..0] == [];
  }

  /** With the threshold left or more, an accepted nonce moves no timer. */
  lemma NonceLeavesTimers(s: VaultStore, auth: set<Address>, user: Address, nonce: u64)
    requires s.Valid() && (Temporary, Nonce(user)) in s.data && s.Ttl(Temporary, Nonce(user)) >= LEDGERS_PER_DAY
    ensures
      var outcome := ConsumeNonce(s, auth, user, nonce);
      outcome.Ok? ==> outcome.value.1.until == s.until
  {
  }

  /** The vault before the call of day `n`. */
  ghost predicate Morning(w: World, user: Address, n: nat) {
    var s, t := w.store, Own(Temporary, Nonce(user));
    && s.Valid() && s.clock == n * LEDGERS_PER_DAY && !s.IsArchived(Instance, Admin)
    && Shared in s.until && s.until[Shared] > 30 * LEDGERS_PER_DAY
    && t in s.until && s.until[t] == 30 * LEDGERS_PER_DAY
    && s.Read(Temporary, Nonce(user)) == Some(n) && s.Ttl(Temporary, Nonce(user)) >= LEDGERS_PER_DAY
  }

  /** A day passes, and the entry is still there. */
  lemma DayPasses(w: World, user: Address, n: nat, checked: bool)
    requires OnDay(w, user, n) && n < 29
    ensures
      var closed := Next(w, Closes(LEDGERS_PER_DAY), checked);
      Morning(closed, user, n + 1) && CalledLately(closed, user, LEDGERS_PER_DAY)
  {
    AdvanceKeepsValid(w.store, LEDGERS_PER_DAY);
  }

  lemma NextDay(w: World, user: Address, n: nat, checked: bool)
    requires OnDay(w, user, n) && n < 29
    ensures
      var closed := Next(w, Closes(LEDGERS_PER_DAY), checked);
      && CalledLately(closed, user, LEDGERS_PER_DAY)
      && OnDay(Next(closed, Calls({user}, DoConsumeNonce(user, n + 2)), checked), user, n + 1)
  {
    hide OnDay, Morning, Next, CalledLately;
    DayPasses(w, user, n, checked);
    CallsAgain(Next(w, Closes(LEDGERS_PER_DAY), checked), user, n + 1, checked);
  }

  lemma CallsAgain(w: World, user: Address, n: nat, checked: bool)
    requires Morning(w, user, n) && n < 30
    ensures OnDay(Next(w, Calls({user}, DoConsumeNonce(user, n + 1)), checked), user, n)
  {
    NonceEffect(w.store, {user}, user, n + 1);
    NonceLeavesTimers(w.store, {user}, user, n + 1);
    NonceCallIsNext(w, {user}, user, n + 1, checked);
    hide Store.Valid, ConsumeNonce, Next, Store.Ttl, Store.IsArchived;
  }

  /** An accepted nonce call as an event. */
  lemma NonceCallIsNext(w: World, auth: set<Address>, user: Address, nonce: u64, checked: bool)
    requires !w.store.IsArchived(Instance, Admin) && ConsumeNonce(w.store, auth, user, nonce).Ok?
    ensures
      var w' := Next(w, Calls(auth, DoConsumeNonce(user, nonce)), checked);
      && w'.store == ConsumeNonce(w.store, auth, user, nonce).value.1
      && user in w'.books.accepted && AcceptedAt(w'.books, user) == w.store.clock
  {
  }

  lemma LastDay(w: World, user: Address, checked: bool)
    requires OnDay(w, user, 29)
    ensures
      var closed := Next(w, Closes(LEDGERS_PER_DAY), checked);
      CalledLately(closed, user, LEDGERS_PER_DAY) && user !in closed.books.accepted
  {
  }

  /** A run goes on by one event. */
  lemma CalledMore(w: World, events: seq<Event>, e: Event, checked: bool, user: Address, gap: nat)
    requires CalledWithin(w, events, checked, user, gap)
    requires CalledLately(Next(Reach(w, events, checked), e, checked), user, gap)
    ensures Reach(w, events + [e], checked) == Next(Reach(w, events, checked), e, checked)
    ensures CalledWithin(w, events + [e], checked, user, gap)
  {
    hide CalledLately, Next;
    var more, n := events + [e], |events|;
    assert more[..n] == events && more[..n + 1] == more;
    forall i | 0 <= i <= |more|
      ensures CalledLately(Reach(w, more[..i], checked), user, gap)
    {
      if i <= n {
        assert more[..i] == events[..i];
      }
    }
  }

  lemma OnDayIsLate(w: World, user: Address, n: nat)
    requires OnDay(w, user, n)
    ensures CalledLately(w, user, LEDGERS_PER_DAY)
  {
  }

  lemma {:induction false} HabitHolds(w: World, user: Address, n: nat, checked: bool)
    requires OnDay(w, user, 0) && n < 30
    ensures OnDay(Reach(w, Habit(user, n), checked), user, n)
    ensures CalledWithin(w, Habit(user, n), checked, user, LEDGERS_PER_DAY)
  {
    hide OnDay, CalledLately, Next;
    if n == 0 {
      OnDayIsLate(w, user, 0);
    } else {
      var before := Habit(user, n - 1);
      var closes, calls := Closes(LEDGERS_PER_DAY), Calls({user}, DoConsumeNonce(user, n + 1));
      HabitHolds(w, user, n - 1, checked);
      hide CalledWithin;
      NextDay(Reach(w, before, checked), user, n - 1, checked);
      CalledMore(w, before, closes, checked, user, LEDGERS_PER_DAY);
      OnDayIsLate(Next(Reach(w, before + [closes], checked), calls, checked), user, n);
      CalledMore(w, before + [closes], calls, checked, user, LEDGERS_PER_DAY);
      assert before + [closes] + [calls] == Habit(user, n);
    }
  }

  /** Whatever went before, calls at most `gap` ledgers apart keep what was accepted on record. */
  ghost predicate GapKeepsLifetime(gap: nat, checked: bool) {
    forall w, past, more, user |
      && Deployed(w) && user in Reach(w, past, checked).books.accepted
      && CalledWithin(Reach(w, past, checked), more, checked, user, gap) ::
        StaysOnRecord(Reach(w, past, checked), Reach(Reach(w, past, checked), more, checked), user)
  }

  predicate StaysOnRecord(before: World, after: World, user: Address) {
    user in after.books.accepted && Accepted(before.books, user) <= Accepted(after.books, user)
  }

  lemma LongerGap(w: World, events: seq<Event>, checked: bool, user: Address, gap: nat, longer: nat)
    requires CalledWithin(w, events, checked, user, gap) && gap <= longer
    ensures CalledWithin(w, events, checked, user, longer)
  {
  }

  /** A user who calls on every day from deployment on loses the record on day 30 all the same. */
  lemma DailyIsTooLate(admin: Address, user: Address, checked: bool)
      returns (w: World, past: seq<Event>, more: seq<Event>)
    ensures Deployed(w) && user in Reach(w, past, checked).books.accepted
    ensures CalledWithin(Reach(w, past, checked), more, checked, user, LEDGERS_PER_DAY)
    ensures user !in Reach(Reach(w, past, checked), more, checked).books.accepted
  {
    w, past := NewVault(admin, 6_000_000), [Calls({user}, DoConsumeNonce(user, 1))];
    FirstDay(admin, user, checked);
    var begun, closes := Reach(w, past, checked), Closes(LEDGERS_PER_DAY);
    assert user in begun.books.accepted;
    hide OnDay, CalledWithin, CalledLately, Next, Reach, Deployed, Habit;
    HabitHolds(begun, user, 29, checked);
    LastDay(Reach(begun, Habit(user, 29), checked), user, checked);
    CalledMore(begun, Habit(user, 29), closes, checked, user, LEDGERS_PER_DAY);
    more := Habit(user, 29) + [closes];
  }

  /** Accepted calls at most `gap` ledgers apart keep the lifetime on every run exactly when `gap` is below 17 280. */
  lemma LifetimeExactly(gap: nat, checked: bool)
    ensures GapKeepsLifetime(gap, checked) <==> gap < LEDGERS_PER_DAY
  {
    if gap < LEDGERS_PER_DAY {
      hide CalledWithin, Deployed, Reach;
      forall w, past, more, user |
        && Deployed(w) && user in Reach(w, past, checked).books.accepted
        && CalledWithin(Reach(w, past, checked), more, checked, user, gap)
        ensures StaysOnRecord(Reach(w, past, checked), Reach(Reach(w, past, checked), more, checked), user)
      {
        DailyCallsKeepTheLifetime(w, past, more, checked, user, gap);
      }
    } else {
      var w, past, more := DailyIsTooLate(0, 1, checked);
      hide CalledWithin, Deployed, Reach;
      LongerGap(Reach(w, past, checked), more, checked, 1, LEDGERS_PER_DAY, gap);
      assert !StaysOnRecord(Reach(w, past, checked), Reach(Reach(w, past, checked), more, checked), 1);
    }
  }

  /** Once the entry has run out, the same nonce is accepted again. */
  lemma ExpiredNonceIsReplayed(admin: Address, user: Address, nonce: u64)
    requires nonce > 0
    ensures
      var w := NewVault(admin, 6_000_000);
      var used, closed := Calls({user}, DoConsumeNonce(user, nonce)), Closes(30 * LEDGERS_PER_DAY);
      && Deployed(w)
      && Execute(w.store, {user}, used.call, true).Ok?
      && Execute(Reach(w, [used, closed], true).store, {user}, used.call, true).Ok?
  {
    var w := NewVault(admin, 6_000_000);
    var used, closed := Calls({user}, DoConsumeNonce(user, nonce)), Closes(30 * LEDGERS_PER_DAY);
    NewVaultIsDeployed(admin, 6_000_000);
    ReachTwo(w, used, closed, true);
    NonceEffect(w.store, {user}, user, nonce);
    FirstNonceTimer(w.store, {user}, user, nonce);
    var s := Next(w, used, true).store;
    assert s.until[Own(Temporary, Nonce(user))] == 30 * LEDGERS_PER_DAY;
    AdvanceKeepsValid(s, 30 * LEDGERS_PER_DAY);
    var later := s.Advance(30 * LEDGERS_PER_DAY);
    assert later.Read(Temporary, Nonce(user)) == None;
    assert !later.IsArchived(Instance, Admin);
    hide Store.Valid, Store.Advance, ConsumeNonce, Reach;
    NonceEffect(later, {user}, user, nonce);
  }

  lemma FirstNonceTimer(s: VaultStore, auth: set<Address>, user: Address, nonce: u64)
    requires s.Valid() && (Temporary, Nonce(user)) !in s.data && s.minTemp < LEDGERS_PER_DAY
    ensures
      var outcome := ConsumeNonce(s, auth, user, nonce);
      outcome.Ok? ==>
        && Own(Temporary, Nonce(user)) in outcome.value.1.until
        && outcome.value.1.until[Own(Temporary, Nonce(user))] == s.clock + 30 * LEDGERS_PER_DAY
  {
    assert Own(Temporary, Nonce(user)) !in s.until;
  }
}
