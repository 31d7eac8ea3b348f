/** Lifecycles, TTL policies and the network's ledger constants. */
module Ttl {
  import opened Machine

  datatype Lifecycle = Temporary | Persistent | Instance

  const LEDGERS_PER_DAY: u32 := 17_280
  const MIN_PERSISTENT_TTL: u32 := 4_095
  const MAX_PERSISTENT_TTL: u32 := 6_311_390
  const MAX_TEMP_TTL: u32 := 3_110_400

  function MaxTtl(lifecycle: Lifecycle): u32 {
    match lifecycle
    case Temporary => MAX_TEMP_TTL
    case Persistent => MAX_PERSISTENT_TTL
    case Instance => MAX_PERSISTENT_TTL
  }

  datatype TtlPolicy = TtlPolicy(threshold: u32, extendTo: u32) {
    /** Only the target is clamped; the threshold stays as it was given. */
    function ClampedFor(lifecycle: Lifecycle): TtlPolicy {
      TtlPolicy(threshold, Min(extendTo, MaxTtl(lifecycle)))
    }

    /**
     * How long an entry lasts after a bump at least: it is not lifted from the threshold on, nor beyond the target or
     * the maximum; and an entry that can be bumped has a ledger left.
     */
    function Lasting(lifecycle: Lifecycle): nat {
      Max(1, Min(threshold, Min(extendTo, MaxTtl(lifecycle))))
    }

    /** The policy can lift an entry of this lifecycle to its threshold. */
    predicate Reaches(lifecycle: Lifecycle) {
      threshold <= extendTo && threshold <= MaxTtl(lifecycle)
    }
  }

  function Days(thresholdDays: nat, extendDays: nat): TtlPolicy
    requires thresholdDays * 17_280 <= U32_MAX && extendDays * 17_280 <= U32_MAX
  {
    TtlPolicy(thresholdDays * LEDGERS_PER_DAY, extendDays * LEDGERS_PER_DAY)
  }

  function DefaultPolicy(lifecycle: Lifecycle): TtlPolicy {
    match lifecycle
    case Temporary => TtlPolicy(LEDGERS_PER_DAY, 30 * LEDGERS_PER_DAY)
    case Persistent => TtlPolicy(7 * LEDGERS_PER_DAY, 30 * LEDGERS_PER_DAY)
    case Instance => TtlPolicy(7 * LEDGERS_PER_DAY, 30 * LEDGERS_PER_DAY)
  }
}
