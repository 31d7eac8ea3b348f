/** Runs of storage operations, passing ledgers and restores, and what holds over all of them. */
module StorageRuns {
  import opened Wrappers
  import opened Ttl
  import opened Storage

  datatype Op<K, !V> =
    | DoGet(lc: Lifecycle, k: K, policy: TtlPolicy, autoBump: bool)
    | DoSet(lc: Lifecycle, k: K, v: V, policy: TtlPolicy, autoBump: bool)
    | DoSetTtl(lc: Lifecycle, k: K, v: V, ttl: nat)
    | DoUpdate(lc: Lifecycle, k: K, f: Option<V> -> Result<V, Trap>, policy: TtlPolicy, autoBump: bool)
    | DoRemove(lc: Lifecycle, k: K)
    | DoExtendTtl(lc: Lifecycle, k: K, ttl: nat)
    | DoBump(lc: Lifecycle, k: K, policy: TtlPolicy)
    | DoRestore(lc: Lifecycle, k: K)
    | Passes(ledgers: nat)

  function OrSame<K(!new), V>(s: Store<K, V>, r: Result<Store<K, V>, Trap>): Store<K, V> {
    match r
    case Ok(s') => s'
    case Err(_) => s
  }

  /** One operation; an operation that traps changes nothing. */
  function Apply<K(!new), V>(s: Store<K, V>, op: Op<K, V>): Store<K, V> {
    match op
    case DoGet(lc, k, policy, autoBump) =>
      (match s.Get(lc, k, policy, autoBump)
       case Ok((_, s')) => s'
       case Err(_) => s)
    case DoSet(lc, k, v, policy, autoBump) => OrSame(s, s.Set(lc, k, v, policy, autoBump))
    case DoSetTtl(lc, k, v, ttl) => OrSame(s, s.SetTtl(lc, k, v, ttl))
    case DoUpdate(lc, k, f, policy, autoBump) =>
      (match s.Update(lc, k, f, policy, autoBump)
       case Ok((_, s')) => s'
       case Err(_) => s)
    case DoRemove(lc, k) => OrSame(s, s.Remove(lc, k))
    case DoExtendTtl(lc, k, ttl) => OrSame(s, s.ExtendTtl(lc, k, ttl))
    case DoBump(lc, k, policy) => OrSame(s, s.Bump(lc, k, policy))
    case DoRestore(lc, k) => s.Restored(lc, k)
    case Passes(ledgers) => s.Advance(ledgers)
  }

  function After<K(!new), V>(s: Store<K, V>, ops: seq<Op<K, V>>): Store<K, V> {
    if ops == [] then s else Apply(After(s, ops[..|ops| - 1]), ops[|ops| - 1])
  }

  lemma ApplyKeepsValid<K(!new), V>(s: Store<K, V>, op: Op<K, V>)
    requires s.Valid()
    ensures Apply(s, op).Valid()
  {
    match op {
      case DoGet(lc, k, policy, _) =>
        ExtendKeepsValid(s, lc, k, policy.ClampedFor(lc).threshold, policy.ClampedFor(lc).extendTo);
      case DoSet(lc, k, v, policy, _) => SetKeepsValid(s, lc, k, v, policy);
      case DoSetTtl(lc, k, v, ttl) =>
        PutKeepsValid(s, lc, k, v);
        ExtendKeepsValid(s.Put(lc, k, v), lc, k, ttl, ttl);
      case DoUpdate(lc, k, f, policy, _) =>
        if f(s.Read(lc, k)).Ok? {
          SetKeepsValid(s, lc, k, f(s.Read(lc, k)).value, policy);
        }
      case DoRemove(lc, k) => EraseKeepsValid(s, lc, k);
      case DoExtendTtl(lc, k, ttl) => ExtendKeepsValid(s, lc, k, ttl, ttl);
      case DoBump(lc, k, policy) =>
        ExtendKeepsValid(s, lc, k, policy.ClampedFor(lc).threshold, policy.ClampedFor(lc).extendTo);
      case DoRestore(lc, k) => RestoredKeepsValid(s, lc, k);
      case Passes(ledgers) => AdvanceKeepsValid(s, ledgers);
    }
  }

  lemma ExtendKeepsValid<K(!new), V>(s: Store<K, V>, lc: Lifecycle, k: K, threshold: nat, extendTo: nat)
    requires s.Valid()
    ensures s.Extend(lc, k, threshold, extendTo).Ok? ==> s.Extend(lc, k, threshold, extendTo).value.Valid()
  {
    if TimerOf(lc, k) in s.until {
      RaiseKeepsValid(s, lc, k, threshold, extendTo);
    }
  }

  lemma SetKeepsValid<K(!new), V>(s: Store<K, V>, lc: Lifecycle, k: K, v: V, policy: TtlPolicy)
    requires s.Valid()
    ensures forall autoBump :: s.Set(lc, k, v, policy, autoBump).Ok? ==> s.Set(lc, k, v, policy, autoBump).value.Valid()
  {
    PutKeepsValid(s, lc, k, v);
    var clamped := policy.ClampedFor(lc);
    ExtendKeepsValid(s.Put(lc, k, v), lc, k, clamped.threshold, clamped.extendTo);
  }

  lemma {:induction false} AfterKeepsValid<K(!new), V>(s: Store<K, V>, ops: seq<Op<K, V>>)
    requires s.Valid()
    ensures After(s, ops).Valid()
  {
    if ops != [] {
      AfterKeepsValid(s, ops[..|ops| - 1]);
      ApplyKeepsValid(After(s, ops[..|ops| - 1]), ops[|ops| - 1]);
    }
  }

  // ---------------------------------------------------------------------------
  // Refinement to a plain map
  // ---------------------------------------------------------------------------

  /**
   * What an operation writes to one slot: nothing, a value, or the absence of one when the entry is removed or, being
   * temporary, runs out.
   */
  function Effect<K(!new), V>(s: Store<K, V>, op: Op<K, V>, lc: Lifecycle, k: K): Option<Option<V>> {
    match op
    case Passes(ledgers) =>
      if lc == Temporary && s.RunsOut(k, s.clock + ledgers) then Some(None) else None
    case _ =>
      if op.lc != lc || op.k != k || s.IsArchived(lc, k) then None
      else match op
        case DoSet(_, _, v, _, _) => Some(Some(v))
        case DoSetTtl(_, _, v, _) => Some(Some(v))
        case DoUpdate(_, _, f, _, _) =>
          (match f(s.Read(lc, k))
           case Ok(v) => Some(Some(v))
           case Err(_) => None)
        case DoRemove(_, _) => Some(None)
        case _ => None
  }

  function EffectAt<K(!new), V>(s: Store<K, V>, ops: seq<Op<K, V>>, lc: Lifecycle, k: K, i: nat): Option<Option<V>>
    requires i < |ops|
  {
    Effect(After(s, ops[..i]), ops[i], lc, k)
  }

  lemma SetStores<K(!new), V>(s: Store<K, V>, lc: Lifecycle, k: K, v: V, policy: TtlPolicy, autoBump: bool)
    requires s.Valid()
    ensures s.Set(lc, k, v, policy, autoBump).Ok? <==> !s.IsArchived(lc, k)
    ensures s.Set(lc, k, v, policy, autoBump).Ok? ==> s.Set(lc, k, v, policy, autoBump).value.data == s.data[(lc, k) := v]
  {
  }

  /** Reads and extensions leave every value as it is. */
  lemma QuietKeepsData<K(!new), V>(s: Store<K, V>, op: Op<K, V>)
    requires op.DoGet? || op.DoExtendTtl? || op.DoBump? || op.DoRestore?
    ensures Apply(s, op).data == s.data
  {
  }

  lemma SetTtlStores<K(!new), V>(s: Store<K, V>, lc: Lifecycle, k: K, v: V, ttl: nat)
    requires s.Valid()
    ensures OrSame(s, s.SetTtl(lc, k, v, ttl)).data == if s.IsArchived(lc, k) then s.data else s.data[(lc, k) := v]
  {
  }

  lemma ApplyWrites<K(!new), V>(s: Store<K, V>, op: Op<K, V>, lc: Lifecycle, k: K)
    requires s.Valid()
    ensures Apply(s, op).Read(lc, k) ==
      match Effect(s, op, lc, k)
      case Some(written) => written
      case None => s.Read(lc, k)
  {
    hide Store.Valid, Store.Get, Store.Set, Store.SetTtl, Store.IsArchived, Store.Bump, Store.Extend, Store.Restored;
    match op {
      case DoSet(lc', k', v, policy, autoBump) => SetStores(s, lc', k', v, policy, autoBump);
      case DoUpdate(lc', k', f, policy, autoBump) =>
        if f(s.Read(lc', k')).Ok? {
          SetStores(s, lc', k', f(s.Read(lc', k')).value, policy, autoBump);
        }
      case DoSetTtl(lc', k', v, ttl) => SetTtlStores(s, lc', k', v, ttl);
      case Passes(_) =>
      case DoRemove(_, _) =>
      case _ => QuietKeepsData(s, op);
    }
  }

  /**
   * Over every run, what is stored under a lifecycle and key is what the last effective write left there: the value
   * last stored, or nothing once it was removed or ran out. Where nothing wrote, it is what was there at first.
   */
  lemma {:induction false} LastWriteWins<K(!new), V>(s: Store<K, V>, ops: seq<Op<K, V>>, lc: Lifecycle, k: K)
      returns (last: int)
    requires s.Valid()
    ensures -1 <= last < |ops|
    ensures forall i :: last < i < |ops| ==> EffectAt(s, ops, lc, k, i) == None
    ensures if last < 0 then After(s, ops).Read(lc, k) == s.Read(lc, k)
            else EffectAt(s, ops, lc, k, last) == Some(After(s, ops).Read(lc, k))
  {
    last := -1;
    if ops != [] {
      var n := |ops| - 1;
      var before := ops[..n];
      AfterKeepsValid(s, before);
      ApplyWrites(After(s, before), ops[n], lc, k);
      if EffectAt(s, ops, lc, k, n).Some? {
        last := n;
      } else {
        last := LastWriteWins(s, before, lc, k);
        forall i | 0 <= i < n
          ensures EffectAt(s, ops, lc, k, i) == EffectAt(s, before, lc, k, i)
        {
          assert before[..i] == ops[..i];
        }
      }
    }
  }

  /** A successful read returns exactly what is stored, and a read fails only on an archived entry. */
  lemma GetReturnsStored<K(!new), V>(s: Store<K, V>, lc: Lifecycle, k: K, policy: TtlPolicy, autoBump: bool)
    requires s.Valid()
    ensures s.Get(lc, k, policy, autoBump).Ok? <==> !s.IsArchived(lc, k)
    ensures s.Get(lc, k, policy, autoBump).Ok? ==>
      && s.Get(lc, k, policy, autoBump).value.0 == s.Read(lc, k)
      && s.Get(lc, k, policy, autoBump).value.1.data == s.data
  {
  }

  /** The two stores differ in the clock, or on this timer, in nothing. */
  ghost predicate SameTimer<K(!new), V>(s: Store<K, V>, s': Store<K, V>, t: Timer<K>) {
    && s'.clock == s.clock
    && (t in s'.until <==> t in s.until)
    && (t in s.until ==> s'.until[t] == s.until[t])
  }

  lemma ExtendMovesOne<K(!new), V>(s: Store<K, V>, lc: Lifecycle, k: K, threshold: nat, extendTo: nat, t: Timer<K>)
    requires t != TimerOf(lc, k)
    ensures SameTimer(s, OrSame(s, s.Extend(lc, k, threshold, extendTo)), t)
  {
  }

  lemma SetMovesOne<K(!new), V>(s: Store<K, V>, lc: Lifecycle, k: K, v: V, policy: TtlPolicy, autoBump: bool, t: Timer<K>)
    requires t != TimerOf(lc, k)
    ensures SameTimer(s, OrSame(s, s.Set(lc, k, v, policy, autoBump)), t)
  {
    var clamped := policy.ClampedFor(lc);
    ExtendMovesOne(s.Put(lc, k, v), lc, k, clamped.threshold, clamped.extendTo, t);
    hide Store.Extend, Store.IsArchived;
  }

  lemma OtherTimersUntouched<K(!new), V>(s: Store<K, V>, op: Op<K, V>, t: Timer<K>)
    requires !op.Passes? && t != TimerOf(op.lc, op.k)
    ensures SameTimer(s, Apply(s, op), t)
  {
    hide Store.Extend, Store.Set;
    match op {
      case DoSet(lc, k, v, policy, autoBump) => SetMovesOne(s, lc, k, v, policy, autoBump, t);
      case DoUpdate(lc, k, f, policy, autoBump) =>
        if f(s.Read(lc, k)).Ok? {
          SetMovesOne(s, lc, k, f(s.Read(lc, k)).value, policy, autoBump, t);
        }
      case DoSetTtl(lc, k, v, ttl) => ExtendMovesOne(s.Put(lc, k, v), lc, k, ttl, ttl, t);
      case DoGet(lc, k, policy, _) =>
        ExtendMovesOne(s, lc, k, policy.ClampedFor(lc).threshold, policy.ClampedFor(lc).extendTo, t);
      case DoBump(lc, k, policy) =>
        ExtendMovesOne(s, lc, k, policy.ClampedFor(lc).threshold, policy.ClampedFor(lc).extendTo, t);
      case DoExtendTtl(lc, k, ttl) => ExtendMovesOne(s, lc, k, ttl, ttl, t);
      case _ =>
    }
  }

  /** An operation leaves every other slot's value alone, and every timer but its own. */
  lemma OtherSlotsUntouched<K(!new), V>(s: Store<K, V>, op: Op<K, V>, lc: Lifecycle, k: K)
    requires s.Valid() && !op.Passes? && (op.lc, op.k) != (lc, k)
    ensures Apply(s, op).Read(lc, k) == s.Read(lc, k)
    ensures TimerOf(op.lc, op.k) != TimerOf(lc, k) ==>
      && Apply(s, op).IsArchived(lc, k) == s.IsArchived(lc, k)
      && Apply(s, op).Ttl(lc, k) == s.Ttl(lc, k)
  {
    ApplyWrites(s, op, lc, k);
    hide Apply;
    if TimerOf(op.lc, op.k) != TimerOf(lc, k) {
      OtherTimersUntouched(s, op, TimerOf(lc, k));
    }
  }

  /** Lifecycles are separate key spaces: an operation on one changes no value and no TTL of another. */
  lemma LifecyclesAreSeparate<K(!new), V>(s: Store<K, V>, op: Op<K, V>, lc: Lifecycle)
    requires s.Valid() && !op.Passes? && op.lc != lc
    ensures forall k :: Apply(s, op).Read(lc, k) == s.Read(lc, k) && Apply(s, op).Ttl(lc, k) == s.Ttl(lc, k)
  {
    forall k
      ensures Apply(s, op).Read(lc, k) == s.Read(lc, k) && Apply(s, op).Ttl(lc, k) == s.Ttl(lc, k)
    {
      OtherSlotsUntouched(s, op, lc, k);
    }
  }

  // ---------------------------------------------------------------------------
  // Lifetimes only grow
  // ---------------------------------------------------------------------------

  /** The timer is still there and stands no earlier. */
  ghost predicate Raised<K(!new), V>(s: Store<K, V>, s': Store<K, V>, t: Timer<K>) {
    t in s.until ==> t in s'.until && s.until[t] <= s'.until[t]
  }

  lemma ExtendRaises<K(!new), V>(s: Store<K, V>, lc: Lifecycle, k: K, threshold: nat, extendTo: nat, t: Timer<K>)
    ensures Raised(s, OrSame(s, s.Extend(lc, k, threshold, extendTo)), t)
  {
  }

  lemma SetRaises<K(!new), V>(s: Store<K, V>, lc: Lifecycle, k: K, v: V, policy: TtlPolicy, autoBump: bool, t: Timer<K>)
    ensures Raised(s, OrSame(s, s.Set(lc, k, v, policy, autoBump)), t)
  {
    var clamped := policy.ClampedFor(lc);
    ExtendRaises(s.Put(lc, k, v), lc, k, clamped.threshold, clamped.extendTo, t);
    hide Store.Extend, Store.IsArchived;
  }

  lemma ApplyRaises<K(!new), V>(s: Store<K, V>, op: Op<K, V>, lc: Lifecycle, k: K)
    requires s.Valid() && TimerOf(lc, k) in s.until
    requires lc == Instance || Effect(s, op, lc, k) != Some(None)
    ensures TimerOf(lc, k) in Apply(s, op).until
    ensures s.until[TimerOf(lc, k)] <= Apply(s, op).until[TimerOf(lc, k)]
  {
    hide Store.Valid, Store.Extend, Store.Set;
    var t := TimerOf(lc, k);
    match op {
      case DoSet(lc', k', v, policy, autoBump) => SetRaises(s, lc', k', v, policy, autoBump, t);
      case DoUpdate(lc', k', f, policy, autoBump) =>
        if f(s.Read(lc', k')).Ok? {
          SetRaises(s, lc', k', f(s.Read(lc', k')).value, policy, autoBump, t);
        }
      case DoSetTtl(lc', k', v, ttl) => ExtendRaises(s.Put(lc', k', v), lc', k', ttl, ttl, t);
      case DoGet(lc', k', policy, _) =>
        ExtendRaises(s, lc', k', policy.ClampedFor(lc').threshold, policy.ClampedFor(lc').extendTo, t);
      case DoBump(lc', k', policy) =>
        ExtendRaises(s, lc', k', policy.ClampedFor(lc').threshold, policy.ClampedFor(lc').extendTo, t);
      case DoExtendTtl(lc', k', ttl) => ExtendRaises(s, lc', k', ttl, ttl, t);
      case _ =>
    }
  }

  /** Over every run, a lifetime falls only by removal or by running out as a temporary entry. */
  lemma {:induction false} LifetimesOnlyGrow<K(!new), V>(s: Store<K, V>, ops: seq<Op<K, V>>, lc: Lifecycle, k: K)
    requires s.Valid() && TimerOf(lc, k) in s.until
    requires lc == Instance || forall i :: 0 <= i < |ops| ==> EffectAt(s, ops, lc, k, i) != Some(None)
    ensures TimerOf(lc, k) in After(s, ops).until
    ensures s.until[TimerOf(lc, k)] <= After(s, ops).until[TimerOf(lc, k)]
  {
    if ops != [] {
      hide Apply, Effect, Store.Valid;
      var n := |ops| - 1;
      var before := ops[..n];
      forall i | 0 <= i < n
        ensures EffectAt(s, before, lc, k, i) == EffectAt(s, ops, lc, k, i)
      {
        assert before[..i] == ops[..i];
      }
      LifetimesOnlyGrow(s, before, lc, k);
      AfterKeepsValid(s, before);
      assert EffectAt(s, ops, lc, k, n) == Effect(After(s, before), ops[n], lc, k);
      ApplyRaises(After(s, before), ops[n], lc, k);
    }
  }

  // ---------------------------------------------------------------------------
  // Hot entries never expire
  // ---------------------------------------------------------------------------

  /** A bumping access that finds, or leaves, the entry present. */
  predicate Touches<K(!new), V>(s: Store<K, V>, op: Op<K, V>, lc: Lifecycle, k: K, policy: TtlPolicy) {
    && !op.Passes? && op.lc == lc && op.k == k && !s.IsArchived(lc, k)
    && match op
       case DoGet(_, _, p, autoBump) => p == policy && autoBump && s.Read(lc, k).Some?
       case DoSet(_, _, _, p, autoBump) => p == policy && autoBump
       case DoUpdate(_, _, f, p, autoBump) => p == policy && autoBump && f(s.Read(lc, k)).Ok?
       case _ => false
  }

  /** The ledger of the last access; the run starts with one. */
  function LastTouch<K(!new), V>(s: Store<K, V>, ops: seq<Op<K, V>>, lc: Lifecycle, k: K, policy: TtlPolicy): nat {
    if ops == [] then s.clock
    else
      var before := ops[..|ops| - 1];
      var here := After(s, before);
      if Touches(here, ops[|ops| - 1], lc, k, policy) then here.clock else LastTouch(s, before, lc, k, policy)
  }

  /** The entry is present, and its timer runs for as long beyond `last` as the policy makes entries last. */
  ghost predicate LastsFrom<K(!new), V>(s: Store<K, V>, lc: Lifecycle, k: K, policy: TtlPolicy, last: nat) {
    (lc, k) in s.data && TimerOf(lc, k) in s.until && last + policy.Lasting(lc) <= s.until[TimerOf(lc, k)]
  }

  /** The entry is as an access leaves it. */
  ghost predicate FreshlyTouched<K(!new), V>(s: Store<K, V>, lc: Lifecycle, k: K, policy: TtlPolicy) {
    s.Valid() && LastsFrom(s, lc, k, policy, s.clock)
  }

  /** Accesses to the entry are never more than `gap` ledgers apart, and nothing removes it. */
  ghost predicate KeptHot<K(!new), V>(s: Store<K, V>, ops: seq<Op<K, V>>, lc: Lifecycle, k: K, policy: TtlPolicy, gap: nat) {
    && FreshlyTouched(s, lc, k, policy)
    && (forall i :: 0 <= i <= |ops| ==> After(s, ops[..i]).clock <= LastTouch(s, ops[..i], lc, k, policy) + gap)
    && (forall i :: 0 <= i < |ops| ==> ops[i] != DoRemove(lc, k))
  }

  lemma TouchLasts<K(!new), V>(s: Store<K, V>, op: Op<K, V>, lc: Lifecycle, k: K, policy: TtlPolicy)
    requires s.Valid() && Touches(s, op, lc, k, policy)
    ensures Apply(s, op).clock == s.clock && LastsFrom(Apply(s, op), lc, k, policy, s.clock)
  {
    match op {
      case DoGet(_, _, _, _) => BumpLasts(s, lc, k, policy);
      case DoSet(_, _, v, _, _) => SetLasts(s, lc, k, v, policy);
      case DoUpdate(_, _, f, _, _) => SetLasts(s, lc, k, f(s.Read(lc, k)).value, policy);
      case _ =>
    }
  }

  lemma SetLasts<K(!new), V>(s: Store<K, V>, lc: Lifecycle, k: K, v: V, policy: TtlPolicy)
    requires s.Valid() && !s.IsArchived(lc, k)
    ensures s.Set(lc, k, v, policy, true).Ok?
    ensures
      var after := s.Set(lc, k, v, policy, true).value;
      after.clock == s.clock && LastsFrom(after, lc, k, policy, s.clock)
  {
    PutKeepsValid(s, lc, k, v);
    BumpLasts(s.Put(lc, k, v), lc, k, policy);
  }

  lemma ApplyKeepsClock<K(!new), V>(s: Store<K, V>, op: Op<K, V>)
    ensures Apply(s, op).clock == s.clock + if op.Passes? then op.ledgers else 0
  {
  }

  /** What is neither removed nor out of time stays. */
  lemma NotErased<K(!new), V>(s: Store<K, V>, op: Op<K, V>, lc: Lifecycle, k: K)
    requires op != DoRemove(lc, k) && TimerOf(lc, k) in s.until
    requires op.Passes? ==> s.clock + op.ledgers < s.until[TimerOf(lc, k)]
    ensures Effect(s, op, lc, k) != Some(None)
  {
  }

  lemma HotStep<K(!new), V>(s: Store<K, V>, op: Op<K, V>, lc: Lifecycle, k: K, policy: TtlPolicy, last: nat)
    requires s.Valid() && LastsFrom(s, lc, k, policy, last) && op != DoRemove(lc, k)
    requires !Touches(s, op, lc, k, policy) ==> Apply(s, op).clock < last + policy.Lasting(lc)
    ensures LastsFrom(Apply(s, op), lc, k, policy, if Touches(s, op, lc, k, policy) then s.clock else last)
  {
    hide Apply, Effect, Touches, Store.Valid;
    if Touches(s, op, lc, k, policy) {
      TouchLasts(s, op, lc, k, policy);
    } else {
      ApplyKeepsClock(s, op);
      NotErased(s, op, lc, k);
      ApplyRaises(s, op, lc, k);
      ApplyWrites(s, op, lc, k);
    }
  }

  lemma HotBefore<K(!new), V>(s: Store<K, V>, ops: seq<Op<K, V>>, lc: Lifecycle, k: K, policy: TtlPolicy, gap: nat)
    requires ops != [] && KeptHot(s, ops, lc, k, policy, gap)
    ensures KeptHot(s, ops[..|ops| - 1], lc, k, policy, gap) && ops[|ops| - 1] != DoRemove(lc, k)
  {
    hide After, LastTouch, FreshlyTouched;
    var before := ops[..|ops| - 1];
    assert forall i :: 0 <= i <= |before| ==> before[..i] == ops[..i];
  }

  /** What being kept hot says about the ends of the run. */
  lemma HotAtEnds<K(!new), V>(s: Store<K, V>, ops: seq<Op<K, V>>, lc: Lifecycle, k: K, policy: TtlPolicy, gap: nat)
    requires KeptHot(s, ops, lc, k, policy, gap)
    ensures s.Valid() && LastsFrom(s, lc, k, policy, s.clock)
    ensures After(s, ops).clock <= LastTouch(s, ops, lc, k, policy) + gap
  {
    hide After, LastTouch, LastsFrom, Store.Valid;
    assert ops[..|ops|] == ops;
  }

  /** Over every run with accesses closer than the policy lasts, the entry lasts that long beyond the latest. */
  lemma {:induction false} HotEntryStays<K(!new), V>(s: Store<K, V>, ops: seq<Op<K, V>>, lc: Lifecycle, k: K,
                                                     policy: TtlPolicy, gap: nat)
    requires KeptHot(s, ops, lc, k, policy, gap) && gap < policy.Lasting(lc)
    ensures LastsFrom(After(s, ops), lc, k, policy, LastTouch(s, ops, lc, k, policy))
  {
    hide KeptHot, Touches, LastsFrom, Apply;
    HotAtEnds(s, ops, lc, k, policy, gap);
    if ops != [] {
      var before, last := ops[..|ops| - 1], ops[|ops| - 1];
      HotBefore(s, ops, lc, k, policy, gap);
      HotEntryStays(s, before, lc, k, policy, gap);
      AfterKeepsValid(s, before);
      HotStep(After(s, before), last, lc, k, policy, LastTouch(s, before, lc, k, policy));
    }
  }

  /** Whatever the store and the run, an entry of this lifecycle that is kept hot is live and readable throughout. */
  ghost predicate HotMeansLive<K(!new), V(!new)>(lc: Lifecycle, k: K, policy: TtlPolicy, gap: nat) {
    forall s: Store<K, V>, ops: seq<Op<K, V>> | KeptHot(s, ops, lc, k, policy, gap) :: StaysReadable(s, ops, lc, k)
  }

  predicate StaysReadable<K(!new), V>(s: Store<K, V>, ops: seq<Op<K, V>>, lc: Lifecycle, k: K) {
    After(s, ops).Ttl(lc, k) >= 1 && After(s, ops).Read(lc, k).Some?
  }

  lemma LastingIsReadable<K(!new), V>(s: Store<K, V>, lc: Lifecycle, k: K, policy: TtlPolicy, last: nat)
    requires LastsFrom(s, lc, k, policy, last) && s.clock < last + policy.Lasting(lc)
    ensures s.Ttl(lc, k) >= 1 && s.Read(lc, k).Some?
  {
  }

  /** A store with one entry, which has exactly as long left as the policy makes entries last. */
  lemma AtItsLast<K(!new), V>(lc: Lifecycle, k: K, v: V, policy: TtlPolicy) returns (s: Store<K, V>)
    ensures FreshlyTouched(s, lc, k, policy) && s.clock == 0 && TimerOf(lc, k) in s.until
    ensures s.until[TimerOf(lc, k)] == policy.Lasting(lc)
  {
    var left := policy.Lasting(lc);
    s := if lc == Instance then Store(0, 1, map[(lc, k) := v], map[Shared := left])
         else Store(0, 1, map[(lc, k) := v], map[Shared := 1, Own(lc, k) := left]);
  }

  /** A read of such an entry is a touch that moves nothing. */
  lemma ReadMovesNothing<K(!new), V>(s: Store<K, V>, lc: Lifecycle, k: K, policy: TtlPolicy)
    requires FreshlyTouched(s, lc, k, policy) && s.clock + policy.Lasting(lc) == s.until[TimerOf(lc, k)]
    ensures
      var read: Op<K, V> := DoGet(lc, k, policy, true);
      Apply(s, read) == s && Touches(s, read, lc, k, policy)
  {
    var read: Op<K, V> := DoGet(lc, k, policy, true);
    assert Apply(s, read).until == s.until;
  }

  lemma RunsOutInTime<K(!new), V>(s: Store<K, V>, lc: Lifecycle, k: K, ledgers: nat)
    requires TimerOf(lc, k) in s.until && s.until[TimerOf(lc, k)] <= s.clock + ledgers
    ensures
      var passed: Op<K, V> := Passes(ledgers);
      && Apply(s, passed).Ttl(lc, k) == 0 && Apply(s, passed).clock == s.clock + ledgers
      && forall policy :: !Touches(s, passed, lc, k, policy)
  {
  }

  /** A run of two operations, step by step. */
  lemma TwoSteps<K(!new), V>(s: Store<K, V>, a: Op<K, V>, b: Op<K, V>, lc: Lifecycle, k: K, policy: TtlPolicy)
    ensures After(s, []) == s && After(s, [a]) == Apply(s, a) && After(s, [a, b]) == Apply(Apply(s, a), b)
    ensures LastTouch(s, [], lc, k, policy) == s.clock
    ensures Touches(s, a, lc, k, policy) ==> LastTouch(s, [a], lc, k, policy) == s.clock
    ensures Touches(s, a, lc, k, policy) && !Touches(Apply(s, a), b, lc, k, policy) ==>
      LastTouch(s, [a, b], lc, k, policy) == s.clock
  {
    hide Apply, Touches;
    assert [a][..0] == [] && [a, b][..1] == [a];
  }

  /** An access to an entry that is at its last does not move its timer, so the next may come too late. */
  lemma AtItsLastIsTooLate<K(!new), V>(lc: Lifecycle, k: K, v: V, policy: TtlPolicy, gap: nat)
      returns (s: Store<K, V>, ops: seq<Op<K, V>>)
    requires policy.Lasting(lc) <= gap
    ensures KeptHot(s, ops, lc, k, policy, gap) && !StaysReadable(s, ops, lc, k)
  {
    s := AtItsLast(lc, k, v, policy);
    var first: Op<K, V> := DoGet(lc, k, policy, true);
    var second: Op<K, V> := Passes(policy.Lasting(lc));
    ops := [first, second];
    ReadMovesNothing(s, lc, k, policy);
    RunsOutInTime(s, lc, k, policy.Lasting(lc));
    TwoSteps(s, first, second, lc, k, policy);
    hide Apply, After, LastTouch, Touches, FreshlyTouched, Store.Ttl;
    forall i | 0 <= i <= |ops|
      ensures After(s, ops[..i]).clock <= LastTouch(s, ops[..i], lc, k, policy) + gap
    {
      assert ops[..i] == [] || ops[..i] == [first] || ops[..i] == ops;
    }
  }

  /**
   * For every policy, auto-bump keeps hot entries alive exactly when accesses are fewer ledgers apart than the policy
   * makes entries last.
   */
  lemma HotExactly<K(!new), V(!new)>(lc: Lifecycle, k: K, v: V, policy: TtlPolicy, gap: nat)
    ensures HotMeansLive<K, V>(lc, k, policy, gap) <==> gap < policy.Lasting(lc)
  {
    hide KeptHot, LastsFrom;
    if gap < policy.Lasting(lc) {
      forall s: Store<K, V>, ops: seq<Op<K, V>> | KeptHot(s, ops, lc, k, policy, gap)
        ensures StaysReadable(s, ops, lc, k)
      {
        HotEntryStays(s, ops, lc, k, policy, gap);
        HotAtEnds(s, ops, lc, k, policy, gap);
        LastingIsReadable(After(s, ops), lc, k, policy, LastTouch(s, ops, lc, k, policy));
      }
    } else {
      var s, ops := AtItsLastIsTooLate<K, V>(lc, k, v, policy, gap);
    }
  }
}
