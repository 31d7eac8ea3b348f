/** A user's balance over runs of the vault: what it is, what `balance` answers, and how long it lives. */
module BalanceRuns {
  import opened Machine
  import opened Wrappers
  import opened Ttl
  import opened Storage
  import opened StorageTimers
  import opened Vault
  import opened VaultEffects
  import opened VaultAnswers
  import opened VaultSums
  import opened VaultRuns

  // ---------------------------------------------------------------------------
  // What the balance is
  // ---------------------------------------------------------------------------

  predicate Succeeds(w: World, e: Event, checked: bool) {
    e.Calls? && Execute(w.store, e.auth, e.call, checked).Ok?
  }

  /** What an event pays into a user's balance: a deposit, the claim that was answered, less a withdrawal. */
  function PaidIn(w: World, e: Event, checked: bool, user: Address): int {
    if !Succeeds(w, e, checked) then 0
    else match e.call
      case DoDeposit(u, amount) => if u == user then amount else 0
      case DoWithdraw(u, amount) => if u == user then 0 - (amount as int) else 0
      case DoClaim(u) =>
        var reply := Execute(w.store, e.auth, e.call, checked).value.0;
        if u == user && reply.Amount? then reply.amount else 0
      case _ => 0
  }

  /** Whether the payment takes the balance beyond an `i128`. */
  function WrapsIn(w: World, e: Event, checked: bool, user: Address): nat {
    if PaidIn(w, e, checked, user) > 0 && Held(w.store, user) + PaidIn(w, e, checked, user) > I128_MAX then 1 else 0
  }

  function PaidOver(w: World, events: seq<Event>, checked: bool, user: Address): int {
    if events == [] then 0
    else
      var n := |events| - 1;
      PaidOver(w, events[..n], checked, user) + PaidIn(Reach(w, events[..n], checked), events[n], checked, user)
  }

  function WrapsOver(w: World, events: seq<Event>, checked: bool, user: Address): nat {
    if events == [] then 0
    else
      var n := |events| - 1;
      WrapsOver(w, events[..n], checked, user) + WrapsIn(Reach(w, events[..n], checked), events[n], checked, user)
  }

  lemma EventPays(w: World, e: Event, checked: bool, user: Address)
    requires Sound(w)
    ensures Held(Next(w, e, checked).store, user)
         == Held(w.store, user) + PaidIn(w, e, checked, user) - TWO_128 * WrapsIn(w, e, checked, user)
    ensures checked ==> WrapsIn(w, e, checked, user) == 0
  {
    SoundIsValid(w);
    OnlyOwnCallsMoveBalance(w, e, checked, user);
    if Succeeds(w, e, checked) {
      EveryCallAnswers(w.store, e.auth, e.call, checked);
      CallSucceedsWithin(w.store, e.auth, e.call, checked);
      PendingIsNoDebt(w, user);
      hide Execute, Sound, Next;
    }
  }

  lemma PendingIsNoDebt(w: World, user: Address)
    requires Sound(w)
    ensures 0 <= Pending(w.store, user)
  {
    PendingIsCounted(w, user);
  }

  /**
   * Over every run a user's balance is what was paid in: their deposits and the claims they were answered, less their
   * withdrawals, and less 2^128 for every addition of theirs that wrapped. A checked build wraps none.
   */
  lemma {:induction false} BalanceIsPaidIn(w: World, events: seq<Event>, checked: bool, user: Address)
    requires Deployed(w)
    ensures Held(Reach(w, events, checked).store, user)
         == PaidOver(w, events, checked, user) - TWO_128 * WrapsOver(w, events, checked, user)
    ensures checked ==> WrapsOver(w, events, checked, user) == 0
  {
    hide Deployed, Sound, PaidIn, WrapsIn, Next, Held;
    if events == [] {
      NothingHeld(w, user);
    } else {
      var n := |events| - 1;
      BalanceIsPaidIn(w, events[..n], checked, user);
      ReachedIsSound(w, events[..n], checked);
      EventPays(Reach(w, events[..n], checked), events[n], checked, user);
    }
  }

  lemma NothingHeld(w: World, user: Address)
    requires Deployed(w)
    ensures Held(w.store, user) == 0
  {
  }

  /** In every reachable state `balance` answers exactly while instance and balance are live, and with what was paid in. */
  lemma BalanceAnswersPaidIn(w: World, events: seq<Event>, checked: bool, auth: set<Address>, user: Address)
    requires Deployed(w)
    ensures
      var s := Reach(w, events, checked).store;
      var outcome := Execute(s, auth, DoBalance(user), checked);
      var due := PaidOver(w, events, checked, user) - TWO_128 * WrapsOver(w, events, checked, user);
      && (outcome.Ok? <==> !s.IsArchived(Instance, Admin) && !s.IsArchived(Persistent, Balance(user)))
      && (outcome.Ok? ==> outcome.value.0 == Amount(due))
  {
    var end := Reach(w, events, checked);
    BalanceIsPaidIn(w, events, checked, user);
    ReachedIsSound(w, events, checked);
    SoundIsValid(end);
    hide Reach, Deployed, Sound, PaidOver, WrapsOver, Execute;
    BalanceAnswers(end.store, auth, user, checked);
  }

  // ---------------------------------------------------------------------------
  // How long it lives
  // ---------------------------------------------------------------------------

  /** A successful call about the user's balance that leaves one stored. */
  predicate Visits(w: World, e: Event, checked: bool, user: Address) {
    && Succeeds(w, e, checked)
    && (e.call.DoDeposit? || e.call.DoWithdraw? || e.call.DoBalance? || e.call.DoClaim?) && e.call.user == user
    && (Persistent, Balance(user)) in Next(w, e, checked).store.data
  }

  /** The ledger of the last visit; the run starts with one. */
  function LastVisit(w: World, events: seq<Event>, checked: bool, user: Address): nat {
    if events == [] then w.store.clock
    else
      var n := |events| - 1;
      var near := Reach(w, events[..n], checked);
      if Visits(near, events[n], checked, user) then near.store.clock else LastVisit(w, events[..n], checked, user)
  }

  /** The balance is stored and has a week from `last`. */
  ghost predicate HasWeek(w: World, user: Address, last: nat) {
    && w.store.Valid() && (Persistent, Balance(user)) in w.store.data
    && Own(Persistent, Balance(user)) in w.store.until
    && last + 7 * 17_280 <= w.store.until[Own(Persistent, Balance(user))]
  }

  lemma VisitGivesWeek(w: World, e: Event, checked: bool, user: Address)
    requires w.store.Valid() && Visits(w, e, checked, user)
    ensures HasWeek(Next(w, e, checked), user, w.store.clock) && Next(w, e, checked).store.clock == w.store.clock
  {
    NextKeepsValid(w, e, checked);
    CallIsNext(w, e.auth, e.call, checked);
    CallEffect(w.store, e.auth, e.call, checked);
    EveryCallRefreshes(w.store, e.auth, e.call, checked);
    hide Next, Execute;
  }

  lemma OtherEventsKeepWeek(w: World, e: Event, checked: bool, user: Address, last: nat)
    requires HasWeek(w, user, last) && !Visits(w, e, checked, user)
    ensures HasWeek(Next(w, e, checked), user, last)
  {
    NextKeepsValid(w, e, checked);
    if Succeeds(w, e, checked) {
      CallEffect(w.store, e.auth, e.call, checked);
      CallIsNext(w, e.auth, e.call, checked);
      OtherCallsKeepBalance(w.store, e.call, user);
      hide Execute, Next, Store.Valid, DataAfter, Timers;
    } else {
      QuietKeepsBalance(w, e, checked, user);
      hide Next, Execute, Store.Valid;
    }
  }

  lemma OtherCallsKeepBalance(s: VaultStore, call: Call, user: Address)
    requires (Persistent, Balance(user)) in s.data
    ensures (Persistent, Balance(user)) in DataAfter(s, call)
    ensures !((call.DoDeposit? || call.DoWithdraw? || call.DoBalance? || call.DoClaim?) && call.user == user) ==>
      Own(Persistent, Balance(user)) !in Timers(call)
  {
  }

  /** Without a successful call a balance is not removed and its timer not set back. */
  lemma QuietKeepsBalance(w: World, e: Event, checked: bool, user: Address)
    requires w.store.Valid() && !Succeeds(w, e, checked) && (Persistent, Balance(user)) in w.store.data
    ensures
      var s, t := Next(w, e, checked).store, Own(Persistent, Balance(user));
      && (Persistent, Balance(user)) in s.data
      && t in w.store.until && t in s.until && w.store.until[t] <= s.until[t]
  {
  }

  /** Over every run after a visit, the balance is stored and has a week from the last visit. */
  lemma {:induction false} BalanceHasWeek(w: World, events: seq<Event>, checked: bool, user: Address)
    requires HasWeek(w, user, w.store.clock)
    ensures HasWeek(Reach(w, events, checked), user, LastVisit(w, events, checked, user))
  {
    hide HasWeek, Visits, Next;
    if events != [] {
      var n := |events| - 1;
      var near := Reach(w, events[..n], checked);
      BalanceHasWeek(w, events[..n], checked, user);
      if Visits(near, events[n], checked, user) {
        WeekIsValid(near, user, LastVisit(w, events[..n], checked, user));
        VisitGivesWeek(near, events[n], checked, user);
      } else {
        OtherEventsKeepWeek(near, events[n], checked, user, LastVisit(w, events[..n], checked, user));
      }
    }
  }

  lemma WeekIsValid(w: World, user: Address, last: nat)
    requires HasWeek(w, user, last)
    ensures w.store.Valid()
  {
  }

  /** The last event of the past was a visit. */
  predicate JustVisited(w: World, past: seq<Event>, checked: bool, user: Address) {
    past != [] && Visits(Reach(w, past[..|past| - 1], checked), past[|past| - 1], checked, user)
  }

  /** Visits are never more than `gap` ledgers apart. */
  ghost predicate VisitedWithin(w: World, events: seq<Event>, checked: bool, user: Address, gap: nat) {
    forall i :: 0 <= i <= |events| ==>
      Reach(w, events[..i], checked).store.clock <= LastVisit(w, events[..i], checked, user) + gap
  }

  /** Whatever went before, visits at most `gap` ledgers apart keep the balance from being archived. */
  ghost predicate GapKeepsBalance(gap: nat, checked: bool) {
    forall w, past, more, user |
      && Deployed(w) && JustVisited(w, past, checked, user)
      && VisitedWithin(Reach(w, past, checked), more, checked, user, gap) ::
        !Reach(Reach(w, past, checked), more, checked).store.IsArchived(Persistent, Balance(user))
  }

  lemma VisitedStaysLive(w: World, past: seq<Event>, more: seq<Event>, checked: bool, user: Address, gap: nat)
    requires Deployed(w) && JustVisited(w, past, checked, user) && gap < 7 * 17_280
    requires VisitedWithin(Reach(w, past, checked), more, checked, user, gap)
    ensures !Reach(Reach(w, past, checked), more, checked).store.IsArchived(Persistent, Balance(user))
  {
    var n := |past| - 1;
    ReachedIsSound(w, past[..n], checked);
    SoundIsValid(Reach(w, past[..n], checked));
    VisitGivesWeek(Reach(w, past[..n], checked), past[n], checked, user);
    var begun := Reach(w, past, checked);
    BalanceHasWeek(begun, more, checked, user);
    assert more[..|more|] == more;
    hide Sound, Deployed, Visits, Next;
  }

  /** An entry with exactly a week left is not extended by a look, and a week later it is archived. */
  lemma AWeekApartIsTooLate(admin: Address, user: Address, checked: bool)
      returns (w: World, past: seq<Event>, more: seq<Event>)
    ensures Deployed(w) && JustVisited(w, past, checked, user)
    ensures VisitedWithin(Reach(w, past, checked), more, checked, user, 7 * 17_280)
    ensures Reach(Reach(w, past, checked), more, checked).store.IsArchived(Persistent, Balance(user))
  {
    w := NewVault(admin, 6_000_000);
    var pays, waits, looks := Calls({}, DoDeposit(user, 1)), Closes(23 * 17_280), Calls({}, DoBalance(user));
    past, more := [pays, waits, looks], [Closes(7 * 17_280)];
    NewVaultIsDeployed(admin, 6_000_000);
    var paid := Next(w, pays, checked);
    FirstDeposit(w, user, checked);
    var rested := Next(paid, waits, checked);
    var looked := Next(rested, looks, checked);
    DepositRests(paid, user, checked);
    LookMovesNothing(rested, user, checked);
    hide Next, Visits, Deployed, Store.Valid, VisitedWithin, Store.IsArchived, Reach;
    ReachThree(w, pays, waits, looks, checked);
    WeekPasses(looked, user, checked);
  }

  lemma ReachThree(w: World, a: Event, b: Event, c: Event, checked: bool)
    ensures
      var past := [a, b, c];
      && Reach(w, past[..2], checked) == Next(Next(w, a, checked), b, checked)
      && Reach(w, past, checked) == Next(Next(Next(w, a, checked), b, checked), c, checked)
  {
    hide Next;
    ReachTwo(w, a, b, checked);
    assert [a, b, c][..2] == [a, b];
  }

  /** The week that is left passes without a visit. */
  lemma WeekPasses(w: World, user: Address, checked: bool)
    requires w.store.clock == 23 * 17_280 && Own(Persistent, Balance(user)) in w.store.until
    requires w.store.until[Own(Persistent, Balance(user))] == 30 * 17_280
    ensures
      var more := [Closes(7 * 17_280)];
      && VisitedWithin(w, more, checked, user, 7 * 17_280)
      && Reach(w, more, checked).store.IsArchived(Persistent, Balance(user))
  {
    var e := Closes(7 * 17_280);
    ClosingIsNoVisit(w, user, checked);
    hide Next, Visits, Store.IsArchived;
    ReachOne(w, e, checked);
    assert [e][..0] == [] && [e][..1] == [e];
    assert LastVisit(w, [e], checked, user) == LastVisit(w, [], checked, user) == 23 * 17_280;
    forall i | 0 <= i <= 1
      ensures Reach(w, [e][..i], checked).store.clock <= LastVisit(w, [e][..i], checked, user) + 7 * 17_280
    {
      assert [e][..i] == [] || [e][..i] == [e];
    }
  }

  lemma FirstDeposit(w: World, user: Address, checked: bool)
    requires w.store.Valid() && w.store.clock == 0 && w.store.until.Keys == {Shared} && w.store.until[Shared] == 6_000_000
    requires (Persistent, Balance(user)) !in w.store.data
    ensures
      var s := Next(w, Calls({}, DoDeposit(user, 1)), checked).store;
      && s.Valid() && s.clock == 0 && Shared in s.until && s.until[Shared] == 6_000_000
      && (Persistent, Balance(user)) in s.data && Own(Persistent, Balance(user)) in s.until
      && s.until[Own(Persistent, Balance(user))] == 30 * 17_280
  {
    CreditEffect(w.store, user, 1, checked, Done);
    DepositRefreshes(w.store, {}, user, 1, checked);
    CallIsNext(w, {}, DoDeposit(user, 1), checked);
    hide Next, Credit, Store.Valid;
  }

  lemma DepositRests(w: World, user: Address, checked: bool)
    requires w.store.Valid() && w.store.clock == 0 && Shared in w.store.until && w.store.until[Shared] == 6_000_000
    requires (Persistent, Balance(user)) in w.store.data && Own(Persistent, Balance(user)) in w.store.until
    requires w.store.until[Own(Persistent, Balance(user))] == 30 * 17_280
    ensures
      var s := Next(w, Closes(23 * 17_280), checked).store;
      && s.Valid() && s.clock == 23 * 17_280 && Shared in s.until && s.until[Shared] == 6_000_000
      && (Persistent, Balance(user)) in s.data && Own(Persistent, Balance(user)) in s.until
      && s.until[Own(Persistent, Balance(user))] == 30 * 17_280
  {
    AdvanceKeepsValid(w.store, 23 * 17_280);
  }

  lemma LookMovesNothing(w: World, user: Address, checked: bool)
    requires w.store.Valid() && w.store.clock == 23 * 17_280 && Shared in w.store.until && w.store.until[Shared] == 6_000_000
    requires (Persistent, Balance(user)) in w.store.data && Own(Persistent, Balance(user)) in w.store.until
    requires w.store.until[Own(Persistent, Balance(user))] == 30 * 17_280
    ensures Visits(w, Calls({}, DoBalance(user)), checked, user)
    ensures
      var s := Next(w, Calls({}, DoBalance(user)), checked).store;
      && s.clock == 23 * 17_280 && Own(Persistent, Balance(user)) in s.until
      && s.until[Own(Persistent, Balance(user))] == 30 * 17_280
  {
    BalanceAnswers(w.store, {}, user, checked);
  }

  lemma ClosingIsNoVisit(w: World, user: Address, checked: bool)
    requires w.store.clock == 23 * 17_280 && Own(Persistent, Balance(user)) in w.store.until
    requires w.store.until[Own(Persistent, Balance(user))] == 30 * 17_280
    ensures
      var e := Closes(7 * 17_280);
      && !Visits(w, e, checked, user) && Next(w, e, checked).store.clock == 30 * 17_280
      && Next(w, e, checked).store.IsArchived(Persistent, Balance(user))
  {
  }

  lemma LongerVisits(w: World, events: seq<Event>, checked: bool, user: Address, gap: nat, longer: nat)
    requires VisitedWithin(w, events, checked, user, gap) && gap <= longer
    ensures VisitedWithin(w, events, checked, user, longer)
  {
  }

  /** Deposits, claims, withdrawals and looks at most `gap` ledgers apart keep a balance live exactly below a week. */
  lemma BalanceLivesExactly(gap: nat, checked: bool)
    ensures GapKeepsBalance(gap, checked) <==> gap < 7 * 17_280
  {
    hide VisitedWithin, Deployed, Reach, JustVisited, Store.IsArchived;
    if gap < 7 * 17_280 {
      forall w, past, more, user |
        && Deployed(w) && JustVisited(w, past, checked, user)
        && VisitedWithin(Reach(w, past, checked), more, checked, user, gap)
        ensures !Reach(Reach(w, past, checked), more, checked).store.IsArchived(Persistent, Balance(user))
      {
        VisitedStaysLive(w, past, more, checked, user, gap);
      }
    } else {
      var w, past, more := AWeekApartIsTooLate(0, 1, checked);
      LongerVisits(Reach(w, past, checked), more, checked, 1, 7 * 17_280, gap);
    }
  }
}
