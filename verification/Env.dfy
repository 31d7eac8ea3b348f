/**
 * The host environment with its three stores, and the storage operations that the accessors are built on. The ghost
 * field `view` is the store's meaning; every method says what it does to that.
 */
module HostEnv {
  import opened Machine
  import opened Wrappers
  import opened Ttl
  import opened Storage

  /** A temporary or persistent entry with its own `live_until`. */
  datatype Entry<V> = Entry(value: V, until: nat)

  /** The contents of the host at one moment. */
  datatype Stores<K(==,!new), V> = Stores(
    minTemp: u32, clock: nat, temporary: map<K, Entry<V>>, persistent: map<K, Entry<V>>, instance: map<K, V>,
    instanceUntil: nat)

  /** A keyed store holds exactly the entries of its lifecycle. */
  ghost predicate ShowsEntries<K(!new), V>(entries: map<K, Entry<V>>, lc: Lifecycle, view: Store<K, V>) {
    && (forall k :: k in entries <==> (lc, k) in view.data)
    && (forall k :: k in entries <==> Own(lc, k) in view.until)
    && (forall k :: k in entries ==> entries[k] == Entry(view.data[(lc, k)], view.until[Own(lc, k)]))
  }

  ghost predicate Shows<K(!new), V>(stores: Stores<K, V>, view: Store<K, V>) {
    && view.clock == stores.clock && view.minTemp == stores.minTemp
    && ShowsEntries(stores.temporary, Temporary, view)
    && ShowsEntries(stores.persistent, Persistent, view)
    && (forall k :: k in stores.instance <==> (Instance, k) in view.data)
    && (forall k :: k in stores.instance ==> stores.instance[k] == view.data[(Instance, k)])
    && Shared in view.until && stores.instanceUntil == view.until[Shared]
  }

  /** Views that agree on a lifecycle show the same entries of it. */
  lemma SameEntries<K(!new), V>(entries: map<K, Entry<V>>, lc: Lifecycle, view: Store<K, V>, view': Store<K, V>)
    requires ShowsEntries(entries, lc, view)
    requires forall k :: ((lc, k) in view.data <==> (lc, k) in view'.data) && (Own(lc, k) in view.until <==> Own(lc, k) in view'.until)
    requires forall k :: (lc, k) in view.data ==> view.data[(lc, k)] == view'.data[(lc, k)]
    requires forall k :: Own(lc, k) in view.until ==> view.until[Own(lc, k)] == view'.until[Own(lc, k)]
    ensures ShowsEntries(entries, lc, view')
  {
  }

  lemma PutShowsEntry<K(!new), V>(entries: map<K, Entry<V>>, lc: Lifecycle, view: Store<K, V>, k: K, v: V, until: nat)
    requires lc != Instance && ShowsEntries(entries, lc, view)
    requires until == if k in entries then entries[k].until else view.clock + view.MinTtl(lc)
    ensures ShowsEntries(entries[k := Entry(v, until)], lc, view.Put(lc, k, v))
  {
  }

  lemma PutShows<K(!new), V>(stores: Stores<K, V>, view: Store<K, V>, lc: Lifecycle, k: K, v: V)
    requires Shows(stores, view)
    ensures
      match lc
      case Temporary =>
        var until := if k in stores.temporary then stores.temporary[k].until else stores.clock + stores.minTemp;
        Shows(stores.(temporary := stores.temporary[k := Entry(v, until)]), view.Put(lc, k, v))
      case Persistent =>
        var until := if k in stores.persistent then stores.persistent[k].until else stores.clock + MIN_PERSISTENT_TTL;
        Shows(stores.(persistent := stores.persistent[k := Entry(v, until)]), view.Put(lc, k, v))
      case Instance => Shows(stores.(instance := stores.instance[k := v]), view.Put(lc, k, v))
  {
    var view' := view.Put(lc, k, v);
    if lc == Temporary {
      var until := if k in stores.temporary then stores.temporary[k].until else stores.clock + stores.minTemp;
      PutShowsEntry(stores.temporary, lc, view, k, v, until);
    } else {
      SameEntries(stores.temporary, Temporary, view, view');
    }
    if lc == Persistent {
      var until := if k in stores.persistent then stores.persistent[k].until else stores.clock + MIN_PERSISTENT_TTL;
      PutShowsEntry(stores.persistent, lc, view, k, v, until);
    } else {
      SameEntries(stores.persistent, Persistent, view, view');
    }
    hide ShowsEntries;
  }

  lemma EraseShowsEntry<K(!new), V>(entries: map<K, Entry<V>>, lc: Lifecycle, view: Store<K, V>, k: K)
    requires lc != Instance && ShowsEntries(entries, lc, view)
    ensures ShowsEntries(entries - {k}, lc, view.Erase(lc, k))
  {
  }

  lemma EraseShows<K(!new), V>(stores: Stores<K, V>, view: Store<K, V>, lc: Lifecycle, k: K)
    requires Shows(stores, view)
    ensures
      match lc
      case Temporary => Shows(stores.(temporary := stores.temporary - {k}), view.Erase(lc, k))
      case Persistent => Shows(stores.(persistent := stores.persistent - {k}), view.Erase(lc, k))
      case Instance => Shows(stores.(instance := stores.instance - {k}), view.Erase(lc, k))
  {
    var view' := view.Erase(lc, k);
    if lc == Temporary {
      EraseShowsEntry(stores.temporary, lc, view, k);
    } else {
      SameEntries(stores.temporary, Temporary, view, view');
    }
    if lc == Persistent {
      EraseShowsEntry(stores.persistent, lc, view, k);
    } else {
      SameEntries(stores.persistent, Persistent, view, view');
    }
    hide ShowsEntries;
  }

  /** Moving one timer in the view is moving it in its store. */
  lemma MovedShows<K(!new), V>(stores: Stores<K, V>, view: Store<K, V>, lc: Lifecycle, k: K, until: nat)
    requires Shows(stores, view) && TimerOf(lc, k) in view.until
    ensures
      var view' := view.(until := view.until[TimerOf(lc, k) := until]);
      match lc
      case Temporary =>
        && k in stores.temporary
        && Shows(stores.(temporary := stores.temporary[k := stores.temporary[k].(until := until)]), view')
      case Persistent =>
        && k in stores.persistent
        && Shows(stores.(persistent := stores.persistent[k := stores.persistent[k].(until := until)]), view')
      case Instance => Shows(stores.(instanceUntil := until), view')
  {
    var view' := view.(until := view.until[TimerOf(lc, k) := until]);
    if lc != Temporary {
      SameEntries(stores.temporary, Temporary, view, view');
    }
    if lc != Persistent {
      SameEntries(stores.persistent, Persistent, view, view');
    }
  }

  lemma RestoredByMoving<K(!new), V>(stores: Stores<K, V>, view: Store<K, V>, lc: Lifecycle, k: K)
    requires view.Valid() && Shows(stores, view) && view.IsArchived(lc, k)
    ensures lc != Temporary && TimerOf(lc, k) in view.until
    ensures view.Restored(lc, k) == view.(until := view.until[TimerOf(lc, k) := stores.clock + MIN_PERSISTENT_TTL])
  {
  }

  function StillLive<K, V>(entries: map<K, Entry<V>>, now: nat): map<K, Entry<V>> {
    map k | k in entries && now < entries[k].until :: entries[k]
  }

  lemma AdvanceShows<K(!new), V>(stores: Stores<K, V>, view: Store<K, V>, ledgers: nat)
    requires Shows(stores, view)
    ensures
      var now := stores.clock + ledgers;
      Shows(stores.(clock := now, temporary := StillLive(stores.temporary, now)), view.Advance(ledgers))
  {
    SameEntries(stores.persistent, Persistent, view, view.Advance(ledgers));
  }

  /** An operation did what it is specified to do: the new store, or the trap and no change. */
  ghost predicate Did<K(!new), V>(before: Store<K, V>, specified: Result<Store<K, V>, Trap>, done: Result<(), Trap>,
                                  after: Store<K, V>)
  {
    match specified
    case Ok(s) => done == Ok(()) && after == s
    case Err(trap) => done == Err(trap) && after == before
  }

  ghost predicate DidWith<K(!new), V, R>(before: Store<K, V>, specified: Result<(R, Store<K, V>), Trap>,
                                         value: Result<R, Trap>, after: Store<K, V>)
  {
    match specified
    case Ok((r, s)) => value == Ok(r) && after == s
    case Err(trap) => value == Err(trap) && after == before
  }

  class Env<K(==,!new), V> {
    const minTemp: u32
    var clock: nat
    var temporary: map<K, Entry<V>>
    var persistent: map<K, Entry<V>>
    var instance: map<K, V>
    var instanceUntil: nat
    ghost var view: Store<K, V>

    ghost predicate Valid()
      reads this
    {
      view.Valid() && Shows(Contents(), view)
    }

    function Contents(): Stores<K, V>
      reads this
    {
      Stores(minTemp, clock, temporary, persistent, instance, instanceUntil)
    }

    constructor (minTemp: u32, instanceUntil: nat)
      requires 1 <= minTemp <= MAX_TEMP_TTL && instanceUntil <= MAX_PERSISTENT_TTL
      ensures Valid() && this.minTemp == minTemp
      ensures view == Store(0, minTemp, map[], map[Shared := instanceUntil])
    {
      this.minTemp := minTemp;
      clock, temporary, persistent, instance := 0, map[], map[], map[];
      this.instanceUntil := instanceUntil;
      view := Store(0, minTemp, map[], map[Shared := instanceUntil]);
    }

    // -------------------------------------------------------------------------
    // The host
    // -------------------------------------------------------------------------

    /** An access to an archived entry traps. */
    method CanAccess(lc: Lifecycle, k: K) returns (ok: bool)
      requires Valid()
      ensures ok == !view.IsArchived(lc, k)
    {
      match lc {
        case Temporary => ok := true;
        case Persistent => ok := k !in persistent || clock < persistent[k].until;
        case Instance => ok := clock < instanceUntil;
      }
    }

    method HostGet(lc: Lifecycle, k: K) returns (value: Option<V>)
      requires Valid()
      ensures value == view.Read(lc, k)
    {
      match lc {
        case Temporary => value := if k in temporary then Some(temporary[k].value) else None;
        case Persistent => value := if k in persistent then Some(persistent[k].value) else None;
        case Instance => value := if k in instance then Some(instance[k]) else None;
      }
    }

    method HostSet(lc: Lifecycle, k: K, v: V)
      requires Valid() && !view.IsArchived(lc, k)
      modifies this
      ensures Valid() && view == old(view).Put(lc, k, v)
    {
      hide Store.Valid, Shows, Store.Put;
      PutKeepsValid(view, lc, k, v);
      PutShows(Contents(), view, lc, k, v);
      match lc {
        case Temporary =>
          var until := if k in temporary then temporary[k].until else clock + minTemp;
          temporary := temporary[k := Entry(v, until)];
        case Persistent =>
          var until := if k in persistent then persistent[k].until else clock + MIN_PERSISTENT_TTL;
          persistent := persistent[k := Entry(v, until)];
        case Instance =>
          instance := instance[k := v];
      }
      view := view.Put(lc, k, v);
    }

    method HostRemove(lc: Lifecycle, k: K)
      requires Valid() && !view.IsArchived(lc, k)
      modifies this
      ensures Valid() && view == old(view).Erase(lc, k)
    {
      hide Store.Valid, Shows, Store.Erase;
      EraseKeepsValid(view, lc, k);
      EraseShows(Contents(), view, lc, k);
      match lc {
        case Temporary => temporary := temporary - {k};
        case Persistent => persistent := persistent - {k};
        case Instance => instance := instance - {k};
      }
      view := view.Erase(lc, k);
    }

    /** Where a timer stands after an extension request. */
    function Extended(until: nat, threshold: nat, extendTo: nat, lc: Lifecycle): nat
      reads this
    {
      var ttl := if clock < until then until - clock else 0;
      if ttl < threshold then Max(until, clock + Min(extendTo, MaxTtl(lc))) else until
    }

    /** What an extension does to the view, as the move of one timer. */
    lemma RaiseMoves(lc: Lifecycle, k: K, threshold: nat, extendTo: nat)
      requires TimerOf(lc, k) in view.until && view.clock == clock
      ensures
        var t := TimerOf(lc, k);
        view.Raise(lc, k, threshold, extendTo)
          == view.(until := view.until[t := Extended(view.until[t], threshold, extendTo, lc)])
    {
      var t := TimerOf(lc, k);
      assert view.until[t := view.until[t]] == view.until;
    }

    method HostExtendTtl(lc: Lifecycle, k: K, threshold: nat, extendTo: nat) returns (done: Result<(), Trap>)
      requires Valid()
      modifies this
      ensures Valid() && Did(old(view), old(view).Extend(lc, k, threshold, extendTo), done, view)
    {
      var ok := CanAccess(lc, k);
      if !ok {
        return Err(ArchivedEntry);
      }
      ok := HasTimer(lc, k);
      if !ok {
        return Err(MissingEntry);
      }
      RaiseKeepsValid(view, lc, k, threshold, extendTo);
      MoveTimer(lc, k, threshold, extendTo);
      done := Ok(());
    }

    method HasTimer(lc: Lifecycle, k: K) returns (has: bool)
      requires Valid()
      ensures has <==> TimerOf(lc, k) in view.until
    {
      match lc {
        case Temporary => has := k in temporary;
        case Persistent => has := k in persistent;
        case Instance => has := true;
      }
    }

    method MoveTimer(lc: Lifecycle, k: K, threshold: nat, extendTo: nat)
      requires Valid() && TimerOf(lc, k) in view.until && view.Raise(lc, k, threshold, extendTo).Valid()
      modifies this
      ensures Valid() && view == old(view).Raise(lc, k, threshold, extendTo)
    {
      ghost var until := Extended(view.until[TimerOf(lc, k)], threshold, extendTo, lc);
      RaiseMoves(lc, k, threshold, extendTo);
      MovedShows(Contents(), view, lc, k, until);
      assert lc == Instance ==> until == Extended(instanceUntil, threshold, extendTo, lc);
      assert lc == Temporary ==> until == Extended(temporary[k].until, threshold, extendTo, lc);
      assert lc == Persistent ==> until == Extended(persistent[k].until, threshold, extendTo, lc);
      hide Store.Valid, Shows, Store.Raise, Extended;
      match lc {
        case Temporary =>
          temporary := temporary[k := temporary[k].(until := Extended(temporary[k].until, threshold, extendTo, lc))];
        case Persistent =>
          persistent := persistent[k := persistent[k].(until := Extended(persistent[k].until, threshold, extendTo, lc))];
        case Instance =>
          instanceUntil := Extended(instanceUntil, threshold, extendTo, lc);
      }
      view := view.Raise(lc, k, threshold, extendTo);
    }

    /** Ledgers close; temporary entries whose time is up are deleted, the rest is kept. */
    method Advance(ledgers: nat)
      requires Valid()
      modifies this
      ensures Valid() && view == old(view).Advance(ledgers)
    {
      hide Store.Valid, Store.Advance, StillLive;
      assert view.clock == clock;
      hide Shows;
      AdvanceKeepsValid(view, ledgers);
      AdvanceShows(Contents(), view, ledgers);
      var now := clock + ledgers;
      temporary := StillLive(temporary, now);
      clock := now;
      view := view.Advance(ledgers);
    }

    /** Restores an archived persistent entry, or the archived instance, with the minimum TTL. */
    method Restore(lc: Lifecycle, k: K)
      requires Valid()
      modifies this
      ensures Valid() && view == old(view).Restored(lc, k)
    {
      hide Store.Valid, Shows;
      var live := CanAccess(lc, k);
      if !live {
        HostRestore(lc, k);
      }
    }

    method HostRestore(lc: Lifecycle, k: K)
      requires Valid() && view.IsArchived(lc, k)
      modifies this
      ensures Valid() && view == old(view).Restored(lc, k)
    {
      hide Store.Valid, Shows, Store.Restored, Store.IsArchived;
      RestoredKeepsValid(view, lc, k);
      RestoredByMoving(Contents(), view, lc, k);
      MovedShows(Contents(), view, lc, k, clock + MIN_PERSISTENT_TTL);
      var until := clock + MIN_PERSISTENT_TTL;
      match lc {
        case Temporary =>
        case Persistent => persistent := persistent[k := persistent[k].(until := until)];
        case Instance => instanceUntil := until;
      }
      view := view.Restored(lc, k);
    }

    // -------------------------------------------------------------------------
    // The storage operations
    // -------------------------------------------------------------------------

    method Bump(lc: Lifecycle, k: K, policy: TtlPolicy) returns (done: Result<(), Trap>)
      requires Valid()
      modifies this
      ensures Valid() && Did(old(view), old(view).Bump(lc, k, policy), done, view)
    {
      var clamped := policy.ClampedFor(lc);
      done := HostExtendTtl(lc, k, clamped.threshold, clamped.extendTo);
    }

    method ExtendTtl(lc: Lifecycle, k: K, ttl: nat) returns (done: Result<(), Trap>)
      requires Valid()
      modifies this
      ensures Valid() && Did(old(view), old(view).ExtendTtl(lc, k, ttl), done, view)
    {
      done := HostExtendTtl(lc, k, ttl, ttl);
    }

    method Has(lc: Lifecycle, k: K) returns (has: Result<bool, Trap>)
      requires Valid()
      ensures has == view.Has(lc, k)
    {
      var ok := CanAccess(lc, k);
      if !ok {
        return Err(ArchivedEntry);
      }
      var found := HostGet(lc, k);
      has := Ok(found.Some?);
    }

    method Get(lc: Lifecycle, k: K, policy: TtlPolicy, autoBump: bool) returns (value: Result<Option<V>, Trap>)
      requires Valid()
      modifies this
      ensures Valid() && DidWith(old(view), old(view).Get(lc, k, policy, autoBump), value, view)
    {
      var ok := CanAccess(lc, k);
      if !ok {
        return Err(ArchivedEntry);
      }
      var found := HostGet(lc, k);
      if found.Some? && autoBump {
        var done := Bump(lc, k, policy);
        if done.Err? {
          return Err(done.error);
        }
      }
      value := Ok(found);
    }

    method Set(lc: Lifecycle, k: K, v: V, policy: TtlPolicy, autoBump: bool) returns (done: Result<(), Trap>)
      requires Valid()
      modifies this
      ensures Valid() && Did(old(view), old(view).Set(lc, k, v, policy, autoBump), done, view)
    {
      var ok := CanAccess(lc, k);
      if !ok {
        return Err(ArchivedEntry);
      }
      HostSet(lc, k, v);
      done := Ok(());
      if autoBump {
        done := Bump(lc, k, policy);
      }
    }

    method SetTtl(lc: Lifecycle, k: K, v: V, ttl: nat) returns (done: Result<(), Trap>)
      requires Valid()
      modifies this
      ensures Valid() && Did(old(view), old(view).SetTtl(lc, k, v, ttl), done, view)
    {
      var ok := CanAccess(lc, k);
      if !ok {
        return Err(ArchivedEntry);
      }
      HostSet(lc, k, v);
      done := ExtendTtl(lc, k, ttl);
    }

    method Update(lc: Lifecycle, k: K, f: Option<V> -> Result<V, Trap>, policy: TtlPolicy, autoBump: bool)
        returns (result: Result<V, Trap>)
      requires Valid()
      modifies this
      ensures Valid() && DidWith(old(view), old(view).Update(lc, k, f, policy, autoBump), result, view)
    {
      var live := CanAccess(lc, k);
      if !live {
        return Err(ArchivedEntry);
      }
      var before := HostGet(lc, k);
      result := f(before);
      if result.Ok? {
        HostSet(lc, k, result.value);
        if autoBump {
          var done := Bump(lc, k, policy);
        }
      }
    }

    method Remove(lc: Lifecycle, k: K) returns (done: Result<(), Trap>)
      requires Valid()
      modifies this
      ensures Valid() && Did(old(view), old(view).Remove(lc, k), done, view)
    {
      var ok := CanAccess(lc, k);
      if !ok {
        return Err(ArchivedEntry);
      }
      HostRemove(lc, k);
      done := Ok(());
    }

    // -------------------------------------------------------------------------
    // Transactions
    // -------------------------------------------------------------------------

    /** Puts the stores back to what they were when the transaction began. */
    method Rollback(saved: Stores<K, V>, ghost was: Store<K, V>)
      requires was.Valid() && Shows(saved, was) && saved.minTemp == minTemp
      modifies this
      ensures Valid() && view == was
    {
      clock, temporary, persistent := saved.clock, saved.temporary, saved.persistent;
      instance, instanceUntil := saved.instance, saved.instanceUntil;
      view := was;
    }
  }
}
