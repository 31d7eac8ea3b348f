/** Where every storage operation leaves the timer of its entry, what it answers and when it traps. */
module StorageTimers {
  import opened Machine
  import opened Wrappers
  import opened Ttl
  import opened Storage
  import opened StorageRuns

  // ---------------------------------------------------------------------------
  // Timers, in the network's own numbers
  // ---------------------------------------------------------------------------

  /** The network maximum of a TTL. */
  function Limit(lc: Lifecycle): nat {
    if lc == Temporary then 3_110_400 else 6_311_390
  }

  /** The TTL an entry starts a write with: what it has, or the network minimum when it is new. */
  function StartTtl<K(!new), V>(s: Store<K, V>, lc: Lifecycle, k: K): nat {
    if TimerOf(lc, k) in s.until then s.Ttl(lc, k) else if lc == Temporary then s.minTemp else 4_095
  }

  /** Below the threshold a bump gives the target, within the maximum, unless the entry has more; else it gives nothing. */
  function Bumped(left: nat, policy: TtlPolicy, lc: Lifecycle): nat {
    if left < policy.threshold then Max(left, Min(policy.extendTo, Limit(lc))) else left
  }

  /** The TTL of its own entry after an operation; an operation that traps leaves it as it was. */
  function TtlAfter<K(!new), V>(s: Store<K, V>, op: Op<K, V>): nat
    requires !op.Passes?
  {
    var left, start := s.Ttl(op.lc, op.k), StartTtl(s, op.lc, op.k);
    if s.IsArchived(op.lc, op.k) then (if op.DoRestore? && op.lc != Temporary then 4_095 else 0)
    else match op
      case DoGet(lc, k, policy, autoBump) => if autoBump && s.Read(lc, k).Some? then Bumped(left, policy, lc) else left
      case DoSet(lc, _, _, policy, autoBump) => if autoBump then Bumped(start, policy, lc) else start
      case DoSetTtl(lc, _, _, ttl) => Max(start, Min(ttl, Limit(lc)))
      case DoUpdate(lc, k, f, policy, autoBump) =>
        if f(s.Read(lc, k)).Err? then left else if autoBump then Bumped(start, policy, lc) else start
      case DoRemove(lc, _) => if lc == Instance then left else 0
      case DoExtendTtl(lc, k, ttl) => if TimerOf(lc, k) in s.until then Max(left, Min(ttl, Limit(lc))) else 0
      case DoBump(lc, k, policy) => if TimerOf(lc, k) in s.until then Bumped(left, policy, lc) else 0
      case DoRestore(_, _) => left
  }

  lemma ExtendLeaves<K(!new), V>(s: Store<K, V>, lc: Lifecycle, k: K, threshold: nat, extendTo: nat)
    requires s.Valid() && !s.IsArchived(lc, k) && TimerOf(lc, k) in s.until
    ensures s.Extend(lc, k, threshold, extendTo).Ok?
    ensures s.Extend(lc, k, threshold, extendTo).value.Ttl(lc, k) ==
      if s.Ttl(lc, k) < threshold then Max(s.Ttl(lc, k), Min(extendTo, Limit(lc))) else s.Ttl(lc, k)
  {
  }

  lemma BumpLeaves<K(!new), V>(s: Store<K, V>, lc: Lifecycle, k: K, policy: TtlPolicy)
    requires s.Valid() && !s.IsArchived(lc, k) && TimerOf(lc, k) in s.until
    ensures s.Bump(lc, k, policy).Ok? && s.Bump(lc, k, policy).value.Ttl(lc, k) == Bumped(s.Ttl(lc, k), policy, lc)
  {
    var clamped := policy.ClampedFor(lc);
    ExtendLeaves(s, lc, k, clamped.threshold, clamped.extendTo);
  }

  lemma PutLeaves<K(!new), V>(s: Store<K, V>, lc: Lifecycle, k: K, v: V)
    requires s.Valid() && !s.IsArchived(lc, k)
    ensures
      var put := s.Put(lc, k, v);
      && put.Valid() && !put.IsArchived(lc, k) && TimerOf(lc, k) in put.until
      && put.Ttl(lc, k) == StartTtl(s, lc, k)
  {
    PutKeepsValid(s, lc, k, v);
  }

  lemma SetLeaves<K(!new), V>(s: Store<K, V>, lc: Lifecycle, k: K, v: V, policy: TtlPolicy, autoBump: bool)
    requires s.Valid() && !s.IsArchived(lc, k)
    ensures s.Set(lc, k, v, policy, autoBump).Ok?
    ensures s.Set(lc, k, v, policy, autoBump).value.Ttl(lc, k) ==
      if autoBump then Bumped(StartTtl(s, lc, k), policy, lc) else StartTtl(s, lc, k)
  {
    PutLeaves(s, lc, k, v);
    BumpLeaves(s.Put(lc, k, v), lc, k, policy);
    hide Store.Valid, Store.Put, Store.Bump, Store.IsArchived;
  }

  /** Every operation leaves exactly this TTL, in network numbers. */
  lemma TtlAfterExactly<K(!new), V>(s: Store<K, V>, op: Op<K, V>)
    requires s.Valid() && !op.Passes?
    ensures Apply(s, op).Ttl(op.lc, op.k) == TtlAfter(s, op)
  {
    if s.IsArchived(op.lc, op.k) {
      ArchivedStays(s, op);
    } else {
      match op {
        case DoGet(lc, k, policy, autoBump) => GetLeaves(s, lc, k, policy, autoBump);
        case DoSet(lc, k, v, policy, autoBump) => SetLeaves(s, lc, k, v, policy, autoBump);
        case DoSetTtl(lc, k, v, ttl) =>
          PutLeaves(s, lc, k, v);
          ExtendLeaves(s.Put(lc, k, v), lc, k, ttl, ttl);
        case DoUpdate(lc, k, f, policy, autoBump) =>
          if f(s.Read(lc, k)).Ok? {
            SetLeaves(s, lc, k, f(s.Read(lc, k)).value, policy, autoBump);
          }
        case DoRemove(_, _) =>
        case DoExtendTtl(lc, k, ttl) =>
          if TimerOf(lc, k) in s.until {
            ExtendLeaves(s, lc, k, ttl, ttl);
          }
        case DoBump(lc, k, policy) =>
          if TimerOf(lc, k) in s.until {
            BumpLeaves(s, lc, k, policy);
          }
        case DoRestore(_, _) =>
      }
    }
  }

  lemma GetLeaves<K(!new), V>(s: Store<K, V>, lc: Lifecycle, k: K, policy: TtlPolicy, autoBump: bool)
    requires s.Valid() && !s.IsArchived(lc, k)
    ensures Apply(s, DoGet(lc, k, policy, autoBump)).Ttl(lc, k) ==
      if autoBump && s.Read(lc, k).Some? then Bumped(s.Ttl(lc, k), policy, lc) else s.Ttl(lc, k)
  {
    if s.Read(lc, k).Some? {
      BumpLeaves(s, lc, k, policy);
    }
  }

  /** Nothing but a restore moves an archived entry. */
  lemma ArchivedStays<K(!new), V>(s: Store<K, V>, op: Op<K, V>)
    requires s.Valid() && !op.Passes? && s.IsArchived(op.lc, op.k)
    ensures op.DoRestore? && op.lc != Temporary ==> Apply(s, op).Ttl(op.lc, op.k) == 4_095
    ensures !op.DoRestore? ==> Apply(s, op) == s
    ensures s.Ttl(op.lc, op.k) == 0
  {
  }

  /** Passing ledgers take that much off every TTL, down to zero. */
  lemma TtlPasses<K(!new), V>(s: Store<K, V>, lc: Lifecycle, k: K, ledgers: nat)
    requires s.Valid()
    ensures s.Advance(ledgers).Ttl(lc, k) == if s.Ttl(lc, k) < ledgers then 0 else s.Ttl(lc, k) - ledgers
  {
  }

  // ---------------------------------------------------------------------------
  // Answers and traps
  // ---------------------------------------------------------------------------

  /** Presence is what a read would find, and is refused only for an archived entry. */
  lemma HasAnswers<K(!new), V>(s: Store<K, V>, lc: Lifecycle, k: K, policy: TtlPolicy, autoBump: bool)
    requires s.Valid()
    ensures match s.Has(lc, k)
            case Ok(has) => s.Get(lc, k, policy, autoBump).Ok? && (has <==> s.Get(lc, k, policy, autoBump).value.0.Some?)
            case Err(trap) => trap == ArchivedEntry && s.IsArchived(lc, k)
  {
    GetReturnsStored(s, lc, k, policy, autoBump);
  }

  /** An update answers with the value it stored, which is the transformed old one. */
  lemma UpdateAnswers<K(!new), V>(s: Store<K, V>, lc: Lifecycle, k: K, f: Option<V> -> Result<V, Trap>,
                                  policy: TtlPolicy, autoBump: bool)
    requires s.Valid()
    ensures
      var done := s.Update(lc, k, f, policy, autoBump);
      && (done.Ok? <==> !s.IsArchived(lc, k) && f(s.Read(lc, k)).Ok?)
      && (done.Ok? ==> f(s.Read(lc, k)) == Ok(done.value.0) && done.value.1.Read(lc, k) == Some(done.value.0))
      && (done.Err? ==> done.error == if s.IsArchived(lc, k) then ArchivedEntry else f(s.Read(lc, k)).error)
  {
    if !s.IsArchived(lc, k) && f(s.Read(lc, k)).Ok? {
      SetLeaves(s, lc, k, f(s.Read(lc, k)).value, policy, autoBump);
      SetStores(s, lc, k, f(s.Read(lc, k)).value, policy, autoBump);
    }
  }

  /** The traps: an archived entry refuses everything but a restore; an extension also needs an entry to extend. */
  lemma TrapsExactly<K(!new), V>(s: Store<K, V>, lc: Lifecycle, k: K, v: V, ttl: nat, policy: TtlPolicy, autoBump: bool)
    requires s.Valid()
    ensures
      var archived, missing := s.IsArchived(lc, k), TimerOf(lc, k) !in s.until;
      && s.Get(lc, k, policy, autoBump).Err? == s.Set(lc, k, v, policy, autoBump).Err? == archived
      && s.SetTtl(lc, k, v, ttl).Err? == s.Remove(lc, k).Err? == archived
      && (archived ==>
            && s.Get(lc, k, policy, autoBump).error == s.Set(lc, k, v, policy, autoBump).error == ArchivedEntry
            && s.SetTtl(lc, k, v, ttl).error == s.Remove(lc, k).error == ArchivedEntry
            && s.ExtendTtl(lc, k, ttl) == s.Bump(lc, k, policy) == Err(ArchivedEntry))
      && (missing ==> s.ExtendTtl(lc, k, ttl) == s.Bump(lc, k, policy) == Err(MissingEntry))
      && (!archived && !missing ==> s.ExtendTtl(lc, k, ttl).Ok? && s.Bump(lc, k, policy).Ok?)
  {
    GetReturnsStored(s, lc, k, policy, autoBump);
    if !s.IsArchived(lc, k) {
      SetLeaves(s, lc, k, v, policy, autoBump);
      PutLeaves(s, lc, k, v);
      ExtendLeaves(s.Put(lc, k, v), lc, k, ttl, ttl);
    }
  }
}
