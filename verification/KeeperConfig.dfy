/** The rent keeper's configuration and the checks made when it is loaded. */
module KeeperConfig {
  import opened Machine
  import opened Wrappers

  const SECONDS_PER_LEDGER: nat := 5

  datatype ContractConfig = ContractConfig(contractId: string, threshold: u32, extendTo: u32)

  datatype Config = Config(
    rpcUrl: string,
    networkPassphrase: string,
    signerSecret: string,
    pollIntervalSecs: u64,
    allowShortThreshold: bool,
    minSignerBalance: int,
    contracts: seq<ContractConfig>
  )

  datatype ConfigError =
    | RpcUrlRequired
    | PassphraseRequired
    | SecretRequired
    | NoContracts
    | ContractIdRequired
    | ThresholdNotBelowTarget(contract: ContractConfig)
    | NegativeFloor
    | ShortThreshold(contract: ContractConfig, elapsed: u32)

  const DEFAULT_THRESHOLD: u32 := 172_800
  const DEFAULT_EXTEND_TO: u32 := 518_400
  const DEFAULT_POLL_INTERVAL_SECS: u64 := 600

  /** Ledgers between two polls, clamped to 32 bits. */
  function LedgersPerPoll(pollIntervalSecs: u64): u32 {
    Min(pollIntervalSecs / SECONDS_PER_LEDGER, U32_MAX)
  }

  function FirstBadPolicy(contracts: seq<ContractConfig>): Option<ConfigError> {
    if contracts == [] then None
    else if contracts[0].contractId == "" then Some(ContractIdRequired)
    else if contracts[0].threshold >= contracts[0].extendTo then Some(ThresholdNotBelowTarget(contracts[0]))
    else FirstBadPolicy(contracts[1..])
  }

  function FirstShortThreshold(contracts: seq<ContractConfig>, elapsed: u32): Option<ConfigError> {
    if contracts == [] then None
    else if contracts[0].threshold < elapsed then Some(ShortThreshold(contracts[0], elapsed))
    else FirstShortThreshold(contracts[1..], elapsed)
  }

  /** The checks in order; the first that fails decides the error. */
  function Validate(config: Config): Result<(), ConfigError> {
    if config.rpcUrl == "" then Err(RpcUrlRequired)
    else if config.networkPassphrase == "" then Err(PassphraseRequired)
    else if config.signerSecret == "" then Err(SecretRequired)
    else if config.contracts == [] then Err(NoContracts)
    else match FirstBadPolicy(config.contracts)
      case Some(e) => Err(e)
      case None =>
        if config.minSignerBalance < 0 then Err(NegativeFloor)
        else if config.allowShortThreshold then Ok(())
        else match FirstShortThreshold(config.contracts, LedgersPerPoll(config.pollIntervalSecs))
          case Some(e) => Err(e)
          case None => Ok(())
  }

  ghost predicate PolicyOrdered(c: ContractConfig) {
    c.contractId != "" && c.threshold < c.extendTo
  }

  /** The threshold outlasts a poll interval, in exact arithmetic on seconds. */
  ghost predicate CoversInterval(c: ContractConfig, pollIntervalSecs: nat) {
    pollIntervalSecs < SECONDS_PER_LEDGER * (c.threshold + 1)
  }

  lemma {:induction false} BadPolicyFound(contracts: seq<ContractConfig>)
    ensures FirstBadPolicy(contracts).None? <==> forall c :: c in contracts ==> PolicyOrdered(c)
  {
    if contracts != [] {
      BadPolicyFound(contracts[1..]);
      assert contracts == [contracts[0]] + contracts[1..];
      assert contracts[0] in contracts;
    }
  }

  lemma {:induction false} ShortThresholdFound(contracts: seq<ContractConfig>, elapsed: u32)
    ensures FirstShortThreshold(contracts, elapsed).None? <==> forall c :: c in contracts ==> elapsed <= c.threshold
    ensures
      match FirstShortThreshold(contracts, elapsed)
      case Some(ShortThreshold(c, e)) => c in contracts && c.threshold < elapsed == e
      case Some(_) => false
      case None => true
  {
    if contracts != [] {
      ShortThresholdFound(contracts[1..], elapsed);
      assert forall c :: c in contracts <==> c == contracts[0] || c in contracts[1..];
    }
  }

  /**
   * Exactly which configurations load. The interval test is stated on seconds without the 32-bit clamp:
   * the clamp never admits a bad interval, since no accepted threshold reaches `u32::MAX`.
   */
  lemma AcceptedExactly(config: Config)
    ensures Validate(config).Ok? <==>
      && config.rpcUrl != "" && config.networkPassphrase != "" && config.signerSecret != ""
      && config.contracts != [] && 0 <= config.minSignerBalance
      && (forall c :: c in config.contracts ==> PolicyOrdered(c))
      && (!config.allowShortThreshold ==> forall c :: c in config.contracts ==> CoversInterval(c, config.pollIntervalSecs))
  {
    var contracts, secs := config.contracts, config.pollIntervalSecs;
    BadPolicyFound(contracts);
    ShortThresholdFound(contracts, LedgersPerPoll(secs));
    forall c | c in contracts && PolicyOrdered(c)
      ensures LedgersPerPoll(secs) <= c.threshold <==> CoversInterval(c, secs)
    {
      assert secs / 5 <= c.threshold <==> secs < 5 * (c.threshold + 1);
    }
  }

  /** The configuration has the flaw that this error names. */
  ghost predicate HasFlaw(config: Config, e: ConfigError) {
    match e
    case RpcUrlRequired => config.rpcUrl == ""
    case PassphraseRequired => config.networkPassphrase == ""
    case SecretRequired => config.signerSecret == ""
    case NoContracts => config.contracts == []
    case ContractIdRequired => exists i: nat :: IsFirst(config.contracts, i) && config.contracts[i].contractId == ""
    case ThresholdNotBelowTarget(c) =>
      exists i: nat :: IsFirst(config.contracts, i) && config.contracts[i] == c && c.contractId != "" && c.extendTo <= c.threshold
    case NegativeFloor => config.minSignerBalance < 0
    case ShortThreshold(c, elapsed) =>
      && !config.allowShortThreshold
      && elapsed == Min(config.pollIntervalSecs / 5, U32_MAX)
      && exists i: nat :: IsFirstShort(config.contracts, i, elapsed) && config.contracts[i] == c
  }

  /** The first contract without an identifier or with its threshold not below its target. */
  ghost predicate IsFirst(contracts: seq<ContractConfig>, i: nat) {
    i < |contracts| && !PolicyOrdered(contracts[i]) && forall j :: 0 <= j < i ==> PolicyOrdered(contracts[j])
  }

  ghost predicate IsFirstShort(contracts: seq<ContractConfig>, i: nat, elapsed: nat) {
    i < |contracts| && contracts[i].threshold < elapsed && forall j :: 0 <= j < i ==> elapsed <= contracts[j].threshold
  }

  /** The place of a check among the checks; the two on a contract's policy are one. */
  function Rank(e: ConfigError): nat {
    match e
    case RpcUrlRequired => 0
    case PassphraseRequired => 1
    case SecretRequired => 2
    case NoContracts => 3
    case ContractIdRequired => 4
    case ThresholdNotBelowTarget(_) => 4
    case NegativeFloor => 5
    case ShortThreshold(_, _) => 6
  }

  /** A refusal names a flaw the configuration has, the first contract that has it, and no earlier check fails. */
  lemma RefusalIsFirstFlaw(config: Config)
    requires Validate(config).Err?
    ensures HasFlaw(config, Validate(config).error)
    ensures forall e :: HasFlaw(config, e) ==> Rank(Validate(config).error) <= Rank(e)
  {
    FirstBadIsFirst(config.contracts);
    FirstShortIsFirst(config.contracts, LedgersPerPoll(config.pollIntervalSecs));
    BadPolicyFound(config.contracts);
    ShortThresholdFound(config.contracts, LedgersPerPoll(config.pollIntervalSecs));
  }

  lemma {:induction false} FirstBadIsFirst(contracts: seq<ContractConfig>)
    ensures
      match FirstBadPolicy(contracts)
      case Some(ContractIdRequired) => exists i: nat :: IsFirst(contracts, i) && contracts[i].contractId == ""
      case Some(ThresholdNotBelowTarget(c)) =>
        exists i: nat :: IsFirst(contracts, i) && contracts[i] == c && c.contractId != "" && c.extendTo <= c.threshold
      case Some(_) => false
      case None => forall i: nat :: !IsFirst(contracts, i)
  {
    BadPolicyFound(contracts);
    if contracts != [] && FirstBadPolicy(contracts).Some? {
      if !PolicyOrdered(contracts[0]) {
        assert IsFirst(contracts, 0);
      } else {
        FirstBadIsFirst(contracts[1..]);
        var i: nat :| IsFirst(contracts[1..], i) &&
                 (match FirstBadPolicy(contracts).value
                  case ContractIdRequired => contracts[1..][i].contractId == ""
                  case ThresholdNotBelowTarget(c) => contracts[1..][i] == c && c.contractId != "" && c.extendTo <= c.threshold
                  case _ => false);
        assert forall j :: 0 < j <= i ==> contracts[j] == contracts[1..][j - 1];
        assert IsFirst(contracts, i + 1) && contracts[i + 1] == contracts[1..][i];
      }
    }
  }

  lemma {:induction false} FirstShortIsFirst(contracts: seq<ContractConfig>, elapsed: u32)
    ensures
      match FirstShortThreshold(contracts, elapsed)
      case Some(ShortThreshold(c, e)) => e == elapsed && exists i: nat :: IsFirstShort(contracts, i, elapsed) && contracts[i] == c
      case Some(_) => false
      case None => true
  {
    if contracts != [] && FirstShortThreshold(contracts, elapsed).Some? {
      if contracts[0].threshold < elapsed {
        assert IsFirstShort(contracts, 0, elapsed);
      } else {
        FirstShortIsFirst(contracts[1..], elapsed);
        var c := FirstShortThreshold(contracts, elapsed).value.contract;
        var i: nat :| IsFirstShort(contracts[1..], i, elapsed) && contracts[1..][i] == c;
        assert forall j :: 0 < j <= i ==> contracts[j] == contracts[1..][j - 1];
        assert IsFirstShort(contracts, i + 1, elapsed) && contracts[i + 1] == c;
      }
    }
  }

  /** A rejection for a short threshold names a contract whose entries outrun the polls, and nothing else is wrong. */
  lemma ShortThresholdIsReal(config: Config)
    requires Validate(config).Err? && Validate(config).error.ShortThreshold?
    ensures
      var c := Validate(config).error.contract;
      && c in config.contracts
      && !CoversInterval(c, config.pollIntervalSecs)
      && Validate(config.(allowShortThreshold := true)).Ok?
  {
    ShortThresholdFound(config.contracts, LedgersPerPoll(config.pollIntervalSecs));
    NoBadPolicyIsShort(config.contracts);
  }

  lemma NoBadPolicyIsShort(contracts: seq<ContractConfig>)
    ensures FirstBadPolicy(contracts).Some? ==> !FirstBadPolicy(contracts).value.ShortThreshold?
  {
  }
}
