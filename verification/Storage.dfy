/**
 * Contract storage as one map with timers: the meaning of the storage operations. Every temporary and persistent entry
 * has its own timer, all instance entries share one. An entry is live while its timer lies after the clock; at zero a
 * temporary entry is deleted, and a persistent entry or the instance is archived until it is restored.
 */
module Storage {
  import opened Machine
  import opened Wrappers
  import opened Ttl

  datatype Timer<K> = Shared | Own(lifecycle: Lifecycle, key: K)

  /** A host trap, which fails the transaction. */
  datatype Trap = ArchivedEntry | MissingEntry | Panic

  function TimerOf<K>(lifecycle: Lifecycle, key: K): Timer<K> {
    if lifecycle == Instance then Shared else Own(lifecycle, key)
  }

  datatype Store<K(==,!new), V> = Store(clock: nat, minTemp: u32, data: map<(Lifecycle, K), V>, until: map<Timer<K>, nat>) {
    ghost predicate Valid() {
      && 1 <= minTemp <= MAX_TEMP_TTL
      && Shared in until && until[Shared] <= clock + MAX_PERSISTENT_TTL
      && (forall lc, k :: (lc, k) in data ==> TimerOf(lc, k) in until)
      && (forall lc, k :: Own(lc, k) in until ==>
            lc != Instance && (lc, k) in data && until[Own(lc, k)] <= clock + MaxTtl(lc))
      && (forall k :: Own(Temporary, k) in until ==> clock < until[Own(Temporary, k)])
    }

    function Read(lc: Lifecycle, k: K): Option<V> {
      if (lc, k) in data then Some(data[(lc, k)]) else None
    }

    /** Ledgers until the timer of this key runs out; zero when there is none. */
    function Ttl(lc: Lifecycle, k: K): nat {
      var t := TimerOf(lc, k);
      if t in until && clock < until[t] then until[t] - clock else 0
    }

    predicate IsArchived(lc: Lifecycle, k: K) {
      TimerOf(lc, k) in until && until[TimerOf(lc, k)] <= clock
    }

    function MinTtl(lc: Lifecycle): u32 {
      if lc == Temporary then minTemp else MIN_PERSISTENT_TTL
    }

    // What the host does with a key that is not archived.

    function Put(lc: Lifecycle, k: K, v: V): Store<K, V> {
      var t := TimerOf(lc, k);
      this.(data := data[(lc, k) := v], until := if t in until then until else until[t := clock + MinTtl(lc)])
    }

    function Erase(lc: Lifecycle, k: K): Store<K, V> {
      this.(data := data - {(lc, k)}, until := if lc == Instance then until else until - {Own(lc, k)})
    }

    /** Extends below the threshold, to at most the network maximum; an extension never shortens a life. */
    function Raise(lc: Lifecycle, k: K, threshold: nat, extendTo: nat): Store<K, V>
      requires TimerOf(lc, k) in until
    {
      var t := TimerOf(lc, k);
      if Ttl(lc, k) < threshold then
        this.(until := until[t := Max(until[t], clock + Min(extendTo, MaxTtl(lc)))])
      else this
    }

    /** Time passes: temporary entries whose timer runs out are deleted. */
    function Advance(ledgers: nat): Store<K, V> {
      var now := clock + ledgers;
      Store(now, minTemp,
            map slot | slot in data && !(slot.0 == Temporary && RunsOut(slot.1, now)) :: data[slot],
            map t | t in until && !(t.Own? && t.lifecycle == Temporary && RunsOut(t.key, now)) :: until[t])
    }

    predicate RunsOut(k: K, now: nat) {
      Own(Temporary, k) in until && until[Own(Temporary, k)] <= now
    }

    /** An archived persistent entry, or the archived instance, comes back with the minimum TTL. */
    function Restored(lc: Lifecycle, k: K): Store<K, V> {
      if lc != Temporary && IsArchived(lc, k)
      then this.(until := until[TimerOf(lc, k) := clock + MIN_PERSISTENT_TTL]) else this
    }

    // The storage operations.

    function Bump(lc: Lifecycle, k: K, policy: TtlPolicy): Result<Store<K, V>, Trap> {
      var clamped := policy.ClampedFor(lc);
      Extend(lc, k, clamped.threshold, clamped.extendTo)
    }

    function Extend(lc: Lifecycle, k: K, threshold: nat, extendTo: nat): Result<Store<K, V>, Trap> {
      if IsArchived(lc, k) then Err(ArchivedEntry)
      else if TimerOf(lc, k) !in until then Err(MissingEntry)
      else Ok(Raise(lc, k, threshold, extendTo))
    }

    function ExtendTtl(lc: Lifecycle, k: K, ttl: nat): Result<Store<K, V>, Trap> {
      Extend(lc, k, ttl, ttl)
    }

    function Has(lc: Lifecycle, k: K): Result<bool, Trap> {
      if IsArchived(lc, k) then Err(ArchivedEntry) else Ok(Read(lc, k).Some?)
    }

    function Get(lc: Lifecycle, k: K, policy: TtlPolicy, autoBump: bool): Result<(Option<V>, Store<K, V>), Trap> {
      if IsArchived(lc, k) then Err(ArchivedEntry)
      else if Read(lc, k).Some? && autoBump then
        match Bump(lc, k, policy)
        case Ok(s) => Ok((Read(lc, k), s))
        case Err(e) => Err(e)
      else Ok((Read(lc, k), this))
    }

    function Set(lc: Lifecycle, k: K, v: V, policy: TtlPolicy, autoBump: bool): Result<Store<K, V>, Trap> {
      if IsArchived(lc, k) then Err(ArchivedEntry)
      else if autoBump then Put(lc, k, v).Bump(lc, k, policy) else Ok(Put(lc, k, v))
    }

    function SetTtl(lc: Lifecycle, k: K, v: V, ttl: nat): Result<Store<K, V>, Trap> {
      if IsArchived(lc, k) then Err(ArchivedEntry) else Put(lc, k, v).ExtendTtl(lc, k, ttl)
    }

    /** `f` may panic, as an overflowing addition does in a checked build. */
    function Update(lc: Lifecycle, k: K, f: Option<V> -> Result<V, Trap>, policy: TtlPolicy, autoBump: bool)
      : Result<(V, Store<K, V>), Trap>
    {
      if IsArchived(lc, k) then Err(ArchivedEntry)
      else match f(Read(lc, k))
        case Err(e) => Err(e)
        case Ok(v) =>
          match Set(lc, k, v, policy, autoBump)
          case Ok(s) => Ok((v, s))
          case Err(e) => Err(e)
    }

    function Remove(lc: Lifecycle, k: K): Result<Store<K, V>, Trap> {
      if IsArchived(lc, k) then Err(ArchivedEntry) else Ok(Erase(lc, k))
    }
  }

  // ---------------------------------------------------------------------------
  // Every operation keeps the store valid
  // ---------------------------------------------------------------------------

  lemma PutKeepsValid<K(!new), V>(s: Store<K, V>, lc: Lifecycle, k: K, v: V)
    requires s.Valid()
    ensures s.Put(lc, k, v).Valid()
  {
  }

  lemma EraseKeepsValid<K(!new), V>(s: Store<K, V>, lc: Lifecycle, k: K)
    requires s.Valid()
    ensures s.Erase(lc, k).Valid()
  {
  }

  lemma RaiseKeepsValid<K(!new), V>(s: Store<K, V>, lc: Lifecycle, k: K, threshold: nat, extendTo: nat)
    requires s.Valid() && TimerOf(lc, k) in s.until
    ensures s.Raise(lc, k, threshold, extendTo).Valid()
  {
  }

  lemma AdvanceKeepsValid<K(!new), V>(s: Store<K, V>, ledgers: nat)
    requires s.Valid()
    ensures s.Advance(ledgers).Valid()
  {
  }

  lemma RestoredKeepsValid<K(!new), V>(s: Store<K, V>, lc: Lifecycle, k: K)
    requires s.Valid()
    ensures s.Restored(lc, k).Valid()
  {
  }

  // ---------------------------------------------------------------------------
  // The arithmetic of lifetimes
  // ---------------------------------------------------------------------------

  /** `extend_ttl` leaves exactly the larger of the present and the requested TTL, within the network maximum. */
  lemma ExtendTtlIsMaximum<K(!new), V>(s: Store<K, V>, lc: Lifecycle, k: K, ttl: nat)
    requires s.Valid() && !s.IsArchived(lc, k) && TimerOf(lc, k) in s.until
    ensures s.ExtendTtl(lc, k, ttl).Ok?
    ensures s.ExtendTtl(lc, k, ttl).value.Ttl(lc, k) == Max(s.Ttl(lc, k), Min(ttl, MaxTtl(lc)))
  {
  }

  /** The TTL an entry has once it is written: its own, or the minimum when it is new. */
  function WrittenTtl<K(!new), V>(s: Store<K, V>, lc: Lifecycle, k: K): nat {
    if TimerOf(lc, k) in s.until then s.Ttl(lc, k) else s.MinTtl(lc)
  }

  lemma SetTtlIsMaximum<K(!new), V>(s: Store<K, V>, lc: Lifecycle, k: K, v: V, ttl: nat)
    requires s.Valid() && !s.IsArchived(lc, k)
    ensures s.SetTtl(lc, k, v, ttl).Ok?
    ensures
      var after := s.SetTtl(lc, k, v, ttl).value;
      after.Ttl(lc, k) == Max(WrittenTtl(s, lc, k), Min(ttl, MaxTtl(lc))) && after.Read(lc, k) == Some(v)
  {
    PutKeepsValid(s, lc, k, v);
    ExtendTtlIsMaximum(s.Put(lc, k, v), lc, k, ttl);
  }

  /**
   * `set_ttl` is documented to pin the lifetime to exactly the given number of ledgers. It does so exactly when the
   * number is within the network maximum and no less than the TTL the entry already has.
   */
  lemma SetTtlPinsExactly<K(!new), V>(s: Store<K, V>, lc: Lifecycle, k: K, v: V, ttl: nat)
    requires s.Valid() && !s.IsArchived(lc, k)
    ensures s.SetTtl(lc, k, v, ttl).Ok?
    ensures s.SetTtl(lc, k, v, ttl).value.Ttl(lc, k) == ttl <==> WrittenTtl(s, lc, k) <= ttl <= MaxTtl(lc)
  {
    SetTtlIsMaximum(s, lc, k, v, ttl);
  }

  /** A one-ledger lifetime asked of a new persistent entry is not what the entry gets. */
  lemma SetTtlNeedNotPin<K(!new), V>(k: K, v: V)
    ensures
      var s := Store<K, V>.Store(0, 1, map[], map[Shared := 1]);
      && s.Valid()
      && s.SetTtl(Persistent, k, v, 1).value.Ttl(Persistent, k) == MIN_PERSISTENT_TTL
  {
    var s := Store<K, V>.Store(0, 1, map[], map[Shared := 1]);
    SetTtlIsMaximum(s, Persistent, k, v, 1);
  }

  /** At a fixed ledger the second bump does nothing. */
  lemma BumpIsIdempotent<K(!new), V>(s: Store<K, V>, lc: Lifecycle, k: K, policy: TtlPolicy)
    requires s.Valid() && s.Bump(lc, k, policy).Ok?
    ensures s.Bump(lc, k, policy).value.Bump(lc, k, policy) == s.Bump(lc, k, policy)
  {
    var once := s.Bump(lc, k, policy).value;
    var twice := once.Bump(lc, k, policy).value;
    assert twice.until == once.until;
  }

  /** A bump leaves at least what the policy makes an entry last, which is the threshold when the policy can reach it. */
  lemma BumpLasts<K(!new), V>(s: Store<K, V>, lc: Lifecycle, k: K, policy: TtlPolicy)
    requires s.Valid() && !s.IsArchived(lc, k) && TimerOf(lc, k) in s.until
    ensures s.Bump(lc, k, policy).Ok?
    ensures s.clock + policy.Lasting(lc) <= s.Bump(lc, k, policy).value.until[TimerOf(lc, k)]
    ensures policy.Reaches(lc) ==> s.clock + policy.threshold <= s.Bump(lc, k, policy).value.until[TimerOf(lc, k)]
  {
  }

  /** Bumping any instance key moves the one timer that all instance keys share. */
  lemma InstanceKeysShareTheirTtl<K(!new), V>(s: Store<K, V>, k: K, other: K, policy: TtlPolicy)
    requires s.Valid() && !s.IsArchived(Instance, k)
    ensures s.Bump(Instance, k, policy).Ok?
    ensures
      var after := s.Bump(Instance, k, policy).value;
      && after.Ttl(Instance, other) == after.Ttl(Instance, k)
      && after.Ttl(Instance, other) ==
         if s.Ttl(Instance, other) < policy.threshold
         then Max(s.Ttl(Instance, other), Min(policy.extendTo, MAX_PERSISTENT_TTL)) else s.Ttl(Instance, other)
  {
  }

  /**
   * An explicit TTL is documented to switch the policy bump off for later reads. A read moves the timer exactly when
   * the accessor bumps, the TTL has fallen below the threshold, and the clamped target lies above it.
   */
  lemma ReadMovesTimerExactly<K(!new), V>(s: Store<K, V>, lc: Lifecycle, k: K, policy: TtlPolicy, autoBump: bool)
    requires s.Valid() && !s.IsArchived(lc, k) && s.Read(lc, k).Some?
    ensures s.Get(lc, k, policy, autoBump).Ok?
    ensures
      var after := s.Get(lc, k, policy, autoBump).value.1;
      after.until != s.until <==> autoBump && s.Ttl(lc, k) < policy.threshold && s.Ttl(lc, k) < Min(policy.extendTo, MaxTtl(lc))
  {
    var t := TimerOf(lc, k);
    var after := s.Get(lc, k, policy, autoBump).value.1;
    assert after.until == s.until <==> after.until[t] == s.until[t];
  }

  /** A grant-like entry, written to live 14 days, is given 30 days by a read in its second week. */
  lemma ReadOverridesExplicitTtl<K(!new), V>(k: K, v: V)
    ensures
      var s := Store<K, V>.Store(0, 1, map[], map[Shared := 1]);
      var pinned := s.SetTtl(Persistent, k, v, 14 * LEDGERS_PER_DAY);
      && s.Valid() && pinned.Ok?
      && var later := pinned.value.Advance(8 * LEDGERS_PER_DAY);
         var read := later.Get(Persistent, k, DefaultPolicy(Persistent), true);
         && later.Ttl(Persistent, k) == 6 * LEDGERS_PER_DAY
         && read.Ok? && read.value.1.Ttl(Persistent, k) == 30 * LEDGERS_PER_DAY
  {
    var s := Store<K, V>.Store(0, 1, map[], map[Shared := 1]);
    SetTtlIsMaximum(s, Persistent, k, v, 14 * LEDGERS_PER_DAY);
  }
}
