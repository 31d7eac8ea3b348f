# Soroban storage lifecycles, verified

A Dafny model of a storage-lifecycle framework for Soroban contracts, with proofs. The framework has three parts, and
so has the model.

**The rent keeper** (`Risk`, `KeeperConfig`, `Retry`, `Keeper`, `KeepAlive`, `PollRefinement`, `KeeperGuarantee`). A
daemon reads the ledger once per poll, fetches the watched entries contract by contract, and extends those at or below a
threshold in size-capped batches, with bounded retries. `Keeper` is the imperative keeper over a network whose replies
are an arbitrary function of the call number. `KeepAlive` is the same keeper as a step system beside a ledger clock:
ledgers close, calls fail and other parties raise lifetimes at any moment, so a poll works from a stale reading. The
schedule is kept per entry: a poll that concludes for the entry, by finding it safe, extending it or failing, does so
within `gap` ledgers of the reading of the one that concluded before it. The bound `(k + 1) * gap <= threshold` is
proved necessary and sufficient, both after a poll that found an entry safe and after an extension that landed.
`PollRefinement` shows that every history of polls of the imperative keeper is a run of the step system: ledgers may
close and others may extend between any two answers, the reading or any fetch or request may fail, and the keeper's
steps in the run are what it did, in order, each request ending as the batch with the keys and the target that were
asked for. `KeeperGuarantee` carries the bound over: it keeps entries alive over every history of polls whose own steps
are on schedule.

**The storage runtime and the vault** (`Ttl`, `Storage`, `Env`, `StorageRuns`, `StorageTimers`, `Vault`, `VaultEffects`,
`VaultAnswers`, `VaultRuns`, `BalanceRuns`). `Storage` gives the meaning of the operations: one map of values, and
timers, one per temporary or persistent entry and one shared by all instance entries. `Env` is the host with its three
stores and the operations on them, each proved against that meaning. `StorageRuns` has the laws over arbitrary runs,
`StorageTimers` where each operation leaves a timer. `Vault` is the example contract, whose entry points are
transactions that roll back on a panic; `VaultRuns` lets calls with any authorisation, closing ledgers, archival,
restores and extensions by others interleave, and keeps books on what succeeded. `VaultAnswers` says what each call
answers, why it is refused and what it leaves; `BalanceRuns` follows one user's balance.

**The schema parsers and the linter** (`Grammar`, `Schema`, `SchemaAgreement`, `Acceptance`, `Visitor`, `Words`,
`Rules`, `Meaning`, `LintScope`). `Grammar` writes schemas out from what they say, and the macro is proved to accept
exactly those, and exactly the entries with a lifecycle that are not both critical and temporary. The `storage!` macro
and the linter each parse the same schema and merge its attributes differently; the exact condition under which they
agree on an entry is proved. `Meaning` says what is reported for a set of function bodies, and exactly when that is what
is documented. The visitor with its mutable loop depth is proved equal to a pure collector, and the collector exact
about which chains there are, where, and whether under a loop.

## Host rules taken from the documentation

- TTL is `live_until - ledger`. At zero a temporary entry is deleted, and a persistent entry or the instance is archived
  until restored with `ledger + 4095` (`docs/storage-guide.md`). Under a host that keeps an entry for one ledger longer
  the liveness results hold all the more.
- `extend_ttl(key, threshold, extend_to)` acts only below the threshold and is clamped to the network maximum. An
  extension never shortens a life; this matters only for a threshold above the target.
- An access to an archived entry traps and the transaction fails; automatic restoration is a restore step before the
  call. A contract whose archived instance was not restored cannot be called. Extending an entry that does not exist
  traps.
- A successful keeper extension lifts each live key of its batch to at least `extend_to` ledgers from landing, as the
  `Rpc` trait documents.

## Where the code and its documentation part

- `set_ttl` is said to pin the TTL to exactly the given value: `Storage.SetTtlPinsExactly` says when it does,
  `Storage.SetTtlNeedNotPin` shows that it need not.
- An explicit TTL is said to suppress the policy bump on later reads: `Storage.ReadMovesTimerExactly` says exactly when
  a read moves the timer, `Storage.ReadOverridesExplicitTtl` turns 6 remaining days into 30.
- A grant is said to expire after 14 days. It is archived, and once restored it is paid:
  `VaultRuns.UntouchedGrantLastsFourteenDays` and `VaultRuns.RestoredGrantIsClaimedLate`.
- `no_bump` is said to opt out of bumping: any later storage attribute that is silent about it opts in again
  (`SchemaAgreement.LastAttributeDecidesBump`, `SchemaAgreement.NoBumpIsDropped`).
- The release profile does not enable overflow checks, so an `i128` addition wraps. The books count the wraps:
  conservation holds exactly when there are none (`VaultRuns.FundsAreConserved`,
  `VaultRuns.ReleaseBuildCanLoseFunds`); a checked build panics instead and has none.
- `docs/lint-rules.md` has `.instance().extend_ttl(...)` checked against the maximum, but the target is looked for as a
  third argument: `LintMeaning.InstanceCheckRightExactly` says when the verdict is right all the same,
  `LintMeaning.InstanceExtensionIsMissed` shows a call that is missed.
- `docs/lint-rules.md` has accesses through another lifecycle than the declared one flagged, but accesses to the
  instance never are, and a schema may be misread: `LintMeaning.MismatchRightExactly` and
  `LintMeaning.MismatchRightByName` say exactly when the verdict is right, `LintMeaning.InstanceAccessIsMissed` and
  `LintMeaning.MisreadSchemaRaisesFalseAlarm` show an access that is missed and one wrongly reported.

## Model

| member | source | states |
|---|---|---|
| Risk.PlanBatches | crates/soroban-rent-keeper/src/risk.rs:87-103 | the batching loop computes the greedy plan |
| Risk.PlanIsFaithful | crates/soroban-rent-keeper/src/risk.rs:87-103 | for every cap the batches concatenate to the input and none is empty |
| Risk.PlanRespectsCap | crates/soroban-rent-keeper/src/risk.rs:81-103 | below `u32::MAX` each batch is a single entry or within the cap by its true sum, and no batch could have taken the next entry |
| Risk.MaximalCapNeverSplits | crates/soroban-rent-keeper/src/risk.rs:92-96 | with the cap at `u32::MAX` the saturating sum never splits anything |
| Risk.PlanIsMinimal | crates/soroban-rent-keeper/src/risk.rs:87-103 | no order-preserving split into acceptable batches is shorter |
| Risk.PlanIsTheSaturatedSplit | crates/soroban-rent-keeper/src/risk.rs:87-103 | a split is the plan if and only if it is acceptable and no batch could have taken one entry more |
| Risk.PlanCountBound | crates/soroban-rent-keeper/src/risk.rs:87-103 | at most 1 + 2 * (total / (cap + 1)) batches |
| Risk.RiskMeans | crates/soroban-rent-keeper/src/risk.rs:44-64 | critical, and to be extended, are entries that run out within the threshold, safe those an extension now would not lift |
| KeeperConfig.AcceptedExactly | crates/soroban-rent-keeper/src/config.rs:105-148 | exactly which configurations load, with the poll interval compared in seconds without the 32-bit clamp |
| KeeperConfig.RefusalIsFirstFlaw | crates/soroban-rent-keeper/src/config.rs:105-148 | a refusal names a flaw the configuration has, of the first contract that has it, and no earlier check fails |
| KeeperConfig.ShortThresholdIsReal | crates/soroban-rent-keeper/src/config.rs:132-146 | a short-threshold refusal names a contract that polls cannot cover, and with the opt-out the configuration would load |
| Retry.WithRetry | crates/soroban-rent-keeper/src/keeper.rs:102-126 | between 1 and max(1, max_attempts) calls, all but the last failing transiently, the last decisive and returned; retries counted; one backoff sleep per retry |
| Retry.TraceExactly | crates/soroban-rent-keeper/src/keeper.rs:102-126 | every operation has exactly one such trace |
| Retry.ReturnsFirstDecisive | crates/soroban-rent-keeper/src/keeper.rs:102-126 | the answer returned is the first success or permanent failure among the first max(1, max_attempts), else the last of these |
| Retry.FirstAndLastDelay | crates/soroban-rent-keeper/src/keeper.rs:67-72 | the first delay is the base within the cap, and from the eleventh on delays are 1024 times the base within the cap |
| Retry.DefaultSleeps | crates/soroban-rent-keeper/src/keeper.rs:49-57 | with the shipped policy an operation that keeps failing sleeps 200 ms and 400 ms and gives up |
| Retry.DelayDoublesUntilCapped | crates/soroban-rent-keeper/src/keeper.rs:65-72 | each of the first eleven delays is the capped double of the one before, later ones stay |
| Retry.DelaysAreMonotone | crates/soroban-rent-keeper/src/keeper.rs:65-72 | delays never fall and never exceed the cap |
| Retry.SleepIsBounded | crates/soroban-rent-keeper/src/keeper.rs:111-125 | the total sleep of one operation lies between retries times the base delay within the cap and retries times the cap |
| Keeper.Keeper.Extend | crates/soroban-rent-keeper/src/keeper.rs:229-234 | one extension, retried as the policy says, ends with the network's last answer |
| Keeper.Keeper.SubmitBatches | crates/soroban-rent-keeper/src/keeper.rs:227-246 | every batch is asked for once and in order whatever became of earlier ones; outcomes and retries counted |
| Keeper.Keeper.PollWatch | crates/soroban-rent-keeper/src/keeper.rs:187-255 | fetch, queue the due entries, extend their plan, report; a failed fetch extends nothing |
| Keeper.Keeper.PollWatches | crates/soroban-rent-keeper/src/keeper.rs:174-184 | every watch is polled from the same reading, a failing one does not stop the others, and all counters are accounted for |
| Keeper.Keeper.PollOnce | crates/soroban-rent-keeper/src/keeper.rs:156-185 | one reading of the ledger for the whole poll; if it fails nothing else happens |
| Keeper.DueAreTheCriticalOnes | crates/soroban-rent-keeper/src/keeper.rs:200-215 | the queued entries are the snapshots at or below the threshold, in order and once each |
| Keeper.PollCoversDueKeys | crates/soroban-rent-keeper/src/keeper.rs:187-255 | the keys asked for are the due keys in order and once each; `critical` is their number, `submitted` at most the batches |
| Keeper.PollIsCounted | crates/soroban-rent-keeper/src/keeper.rs:218-246 | the outcome counters of the watch, and no other's, rise by the requests the network answered as submitted, as no-op (one when nothing is due) and with an error; the report gives the submitted |
| Keeper.WatchMovesCounters | crates/soroban-rent-keeper/src/keeper.rs:102-255 | retries rise by the calls beyond the first of each operation, poll errors by one exactly when the fetch failed |
| Keeper.PollsMoveCounters | crates/soroban-rent-keeper/src/keeper.rs:156-184 | over a whole poll each label counts its failed polls and the submissions its watches report |
| KeepAlive.StepKeepsInv | crates/soroban-rent-keeper/src/keeper.rs:156-255 | every step on schedule keeps a watched key safe beyond the last covering poll's stale reading plus the threshold |
| KeepAlive.KeptAlive | crates/soroban-rent-keeper/src/keeper.rs:156-255 | over every run in which polls conclude for the key at most a gap after the reading of the one before, whatever the rest of the poll takes, and at most k in a row fail it, with (k + 1) * gap <= threshold it is live at every ledger with the rest of the threshold to spare |
| KeepAlive.KeptAliveOnceLanded | crates/soroban-rent-keeper/src/keeper.rs:156-255 | whatever an entry had left when the keeper started, due or not, and however irregular the polls: once an extension finds it live it stays live while the schedule is kept |
| KeepAlive.GuaranteeExactly | crates/soroban-rent-keeper/src/keeper.rs:156-255 | from either kind of start a policy protects its keys on all scheduled runs if and only if (k + 1) * gap <= threshold |
| KeepAlive.GapOfOneThreshold | crates/soroban-rent-keeper/src/keeper.rs:156-255 | with all extensions succeeding a gap of the threshold is safe, and one ledger more is not |
| KeepAlive.DefaultTolerance | crates/soroban-rent-keeper/src/config.rs:24-71 | from either kind of start the default threshold and interval survive 1439 failed polls in a row and not 1440 |
| KeepAlive.ValidConfigKeepsAlive | crates/soroban-rent-keeper/src/config.rs:132-146 | every contract of a configuration accepted without the opt-out is kept alive by polls at the unclamped interval: entries a poll found safe, and all others once an extension finds them live |
| KeepAlive.RefusedConfigLosesEntries | crates/soroban-rent-keeper/src/config.rs:132-146 | the contract a short-threshold refusal names has scheduled runs of both kinds that lose an entry |
| PollRefinement.PollIsARun | crates/soroban-rent-keeper/src/keeper.rs:156-255 | a poll that ended as `PollOnce` ensures, ledger read or not, each watch fetched or not, each request at its own later ledger, takes the step system from rest to rest; the keeper's steps are exactly what it did, each request ending as the batch with the keys and target asked for |
| PollRefinement.HistoryIsARun | crates/soroban-rent-keeper/src/keeper.rs:156-255 | the same for every sequence of polls, which together are one run |
| KeeperGuarantee.HistoryKeepsAlive | crates/soroban-rent-keeper/src/keeper.rs:156-255 | over every sequence of polls on schedule for the key, whatever fails, with (k + 1) * gap <= threshold an entry the last poll found safe is live, with the rest of the threshold to spare, whenever the keeper reads, fetches or extends, and at the end |
| KeeperGuarantee.HistoryKeepsAliveOnceLanded | crates/soroban-rent-keeper/src/keeper.rs:156-255 | the same for any entry once a request that asks for it lands while it is live |
| Storage.ExtendTtlIsMaximum | crates/soroban-storage/src/ops.rs:124-151 | the TTL becomes exactly the larger of the present and the requested, within the network maximum |
| Storage.SetTtlIsMaximum | crates/soroban-storage/src/ops.rs:72-88 | the same for a written entry, a new one counting with the minimum TTL |
| Storage.SetTtlPinsExactly | crates/soroban-storage/src/ops.rs:72-88 | the TTL is the given one if and only if that is within the maximum and no less than the entry already has |
| Storage.SetTtlNeedNotPin | crates/soroban-storage/src/ops.rs:72-88 | a concrete entry that gets more than was asked |
| Storage.BumpIsIdempotent | crates/soroban-storage/src/ops.rs:153-180 | a second bump at the same ledger does nothing |
| Storage.BumpLasts | crates/soroban-storage/src/ops.rs:153-180 | after a bump at least the smallest of threshold, target and maximum is left, which is the threshold when the clamped policy can reach it |
| Storage.InstanceKeysShareTheirTtl | crates/soroban-storage/src/ops.rs:174-178 | bumping one instance key moves the TTL of all |
| Storage.ReadMovesTimerExactly | crates/soroban-storage/src/ops.rs:27-48 | a read moves a timer if and only if it bumps, the TTL is below the threshold and the clamped target above the TTL |
| Storage.ReadOverridesExplicitTtl | crates/soroban-storage/src/ops.rs:72-76 | a concrete explicit TTL that a later read replaces |
| StorageTimers.TtlAfterExactly | crates/soroban-storage/src/ops.rs:23-180 | exactly where every operation leaves the TTL of its entry, in the network's own numbers |
| StorageTimers.UpdateAnswers | crates/soroban-storage/src/ops.rs:90-113 | an update answers with what it stored, the transformed old value, and fails exactly on archived entries or with the transformation |
| StorageTimers.HasAnswers | crates/soroban-storage/src/ops.rs:14-21 | presence is what a read would find, refused only for an archived entry |
| StorageTimers.TrapsExactly | crates/soroban-storage/src/ops.rs:23-180 | which operations trap on archived and on missing entries |
| HostEnv.Env.Has | crates/soroban-storage/src/ops.rs:14-21 | whether a value is stored, without moving a timer |
| HostEnv.Env.Get | crates/soroban-storage/src/ops.rs:23-48 | a read with its bump is the meaning of `get`, or a trap that changes nothing |
| HostEnv.Env.Set | crates/soroban-storage/src/ops.rs:50-70 | a write with its bump is the meaning of `set` |
| HostEnv.Env.SetTtl | crates/soroban-storage/src/ops.rs:72-88 | a write with an explicit extension is the meaning of `set_ttl` |
| HostEnv.Env.Update | crates/soroban-storage/src/ops.rs:90-113 | load, transform, store and bump is the meaning of `update`, also when the transformation panics |
| HostEnv.Env.Remove | crates/soroban-storage/src/ops.rs:115-122 | removal deletes value and timer of its own slot only |
| HostEnv.Env.ExtendTtl | crates/soroban-storage/src/ops.rs:124-151 | an explicit extension is the meaning of `extend_ttl` |
| HostEnv.Env.Bump | crates/soroban-storage/src/ops.rs:153-180 | a bump with the clamped policy is the meaning of `bump` |
| HostEnv.Env.Advance | docs/storage-guide.md:16-22 | closing ledgers deletes the temporary entries whose time is up and nothing else |
| HostEnv.Env.Restore | docs/storage-guide.md:16-22 | restoring an archived persistent entry or the instance gives the minimum TTL and changes nothing else |
| StorageRuns.LastWriteWins | crates/soroban-storage/src/ops.rs:15-122 | over every run the value under a lifecycle and key is the last one stored there that was not removed or expired |
| StorageRuns.GetReturnsStored | crates/soroban-storage/src/ops.rs:23-48 | a read fails only on archived entries and otherwise returns what is stored, changing no value |
| StorageRuns.OtherSlotsUntouched | crates/soroban-storage/src/ops.rs:15-180 | an operation changes no other slot's value and no other timer |
| StorageRuns.LifecyclesAreSeparate | crates/soroban-storage/src/ops.rs:15-180 | an operation on one lifecycle changes no value and no TTL of another |
| StorageRuns.LifetimesOnlyGrow | crates/soroban-storage/src/ops.rs:50-180 | over every run a `live_until` falls only by removal or by a temporary entry running out |
| StorageRuns.HotEntryStays | crates/soroban-storage/src/ops.rs:27-113 | over every run with touches closer than the smallest of threshold, target and maximum, for any policy, the entry stays that long beyond its last touch |
| StorageRuns.HotExactly | crates/soroban-storage/src/ops.rs:27-113 | for every policy auto-bump keeps an entry alive on all runs with touches at most `gap` apart if and only if `gap` is below the smallest of the three, or zero |
| Vault.Contract.constructor | crates/example-contract/src/lib.rs:54-58 | deployment records the admin |
| Vault.Contract.Invoke | crates/example-contract/src/lib.rs:60-130 | each entry point is its specified transaction, and a panic leaves every store as it was |
| VaultEffects.CreditEffect | crates/example-contract/src/lib.rs:62-67 | exactly when a credit succeeds, and what it changes |
| VaultEffects.WithdrawEffect | crates/example-contract/src/lib.rs:69-80 | exactly when a withdrawal succeeds, and what it changes |
| VaultEffects.GrantEffect | crates/example-contract/src/lib.rs:92-101 | exactly when a grant succeeds, its amount and its `live_until` |
| VaultEffects.ClaimEffect | crates/example-contract/src/lib.rs:108-119 | exactly when a claim succeeds, what it pays, and that the grant and its timer are gone |
| VaultEffects.NonceEffect | crates/example-contract/src/lib.rs:121-130 | exactly when a nonce is accepted, and that its entry then lives at least a day |
| VaultAnswers.RefusedExactly | crates/example-contract/src/lib.rs:60-130 | every call fails as the first of its checks that does not pass, and succeeds when all pass |
| VaultAnswers.EveryCallAnswers | crates/example-contract/src/lib.rs:60-130 | what every successful call answers: a look what is stored, a claim the amount paid |
| VaultAnswers.EveryCallRefreshes | crates/example-contract/src/lib.rs:60-130 | where every successful call leaves the lifetime of what it touches: with less than 7 days (a nonce: 1 day) left it becomes 30 days, a grant gets 14 |
| VaultRuns.FundsAreConserved | crates/example-contract/src/lib.rs:62-119 | over every run live and archived balances are deposits plus claims minus withdrawals if and only if no addition wrapped; then none is negative; a checked build never wraps |
| VaultRuns.ReleaseBuildCanLoseFunds | crates/example-contract/src/lib.rs:62-67 | two deposits that make a balance negative in a release build |
| VaultRuns.OnlyOwnCallsMoveBalance | crates/example-contract/src/lib.rs:62-119 | a balance changes only by its owner's deposit, withdrawal or claim |
| VaultRuns.ClaimsAreCovered | crates/example-contract/src/lib.rs:94-119 | over every run a claim pays exactly the last grant to the user, and claims never exceed grants |
| VaultRuns.UntouchedGrantLastsFourteenDays | crates/example-contract/src/lib.rs:92-119 | in every reachable state a grant not restored or extended by others ends exactly 14 days after it was last given, and exactly when a call to claim it succeeds, the instance being live |
| VaultRuns.RestoredGrantIsClaimedLate | crates/example-contract/src/lib.rs:108-119 | a run in which a grant is claimed on its fifteenth day |
| VaultRuns.NoncesAreFresh | crates/example-contract/src/lib.rs:121-130 | in every reachable state a call with a nonce is accepted if and only if the instance is live, the user signed, and the nonce exceeds all accepted in the present lifetime |
| VaultRuns.DailyCallsKeepTheLifetime | crates/example-contract/src/lib.rs:121-130 | over every run with accepted calls less than 17 280 ledgers apart the lifetime is unbroken: the record only grows, increasing, and what was accepted before is refused after |
| VaultRuns.LifetimeExactly | crates/example-contract/src/lib.rs:121-130 | accepted calls at most `gap` ledgers apart keep the lifetime on every run if and only if `gap` is below 17 280 |
| VaultRuns.DailyIsTooLate | crates/example-contract/src/lib.rs:121-130 | a user who calls every 17 280 ledgers from deployment on loses the record on day 30 |
| VaultRuns.ExpiredNonceIsReplayed | crates/example-contract/src/lib.rs:121-130 | a run in which an accepted nonce is accepted again after its entry ran out |
| BalanceRuns.BalanceIsPaidIn | crates/example-contract/src/lib.rs:62-119 | over every run a balance is its user's deposits and answered claims less withdrawals, less 2^128 for every addition that wrapped |
| BalanceRuns.BalanceAnswersPaidIn | crates/example-contract/src/lib.rs:82-85 | in every reachable state `balance` answers exactly while instance and balance are live, and with that amount |
| BalanceRuns.BalanceHasWeek | crates/example-contract/src/lib.rs:62-119 | over every run a balance lives at least a week beyond its user's last deposit, withdrawal, claim or look |
| BalanceRuns.BalanceLivesExactly | crates/example-contract/src/lib.rs:62-119 | these calls at most `gap` ledgers apart keep a balance from being archived on every run if and only if `gap` is below 7 days |
| MacroParser.ParseArgs | crates/soroban-storage-macros/src/lib.rs:88-100 | the loop accepts exactly the lists with types at the even places and commas at the odd ones, so with or without a trailing comma, and returns the types |
| MacroParser.ParseInput | crates/soroban-storage-macros/src/lib.rs:82-113 | the loop succeeds exactly on the token lists that spell well-formed entries, and returns what they say, in order |
| MacroParser.EntriesReadBack | crates/soroban-storage-macros/src/lib.rs:82-113 | round trip: entries written out and parsed again give what they say |
| MacroParser.ParseOptions | crates/soroban-storage-macros/src/lib.rs:143-192 | the option loop computes the merged options of one attribute, or the first error |
| SchemaAcceptance.OptionsExactly | crates/soroban-storage-macros/src/lib.rs:143-192 | this succeeds exactly on comma-separated options with an optional trailing comma, and applies them in order |
| SchemaAcceptance.UnknownExactly | crates/soroban-storage-macros/src/lib.rs:143-192 | a word is reported as unknown if and only if it is no option and well-formed options lead up to it |
| MacroParser.MergeOpts | crates/soroban-storage-macros/src/lib.rs:194-210 | merging stops at the first bad attribute and otherwise folds them in order |
| MacroParser.GenStorage | crates/soroban-storage-macros/src/lib.rs:214-282 | the accessors in order, or the first missing lifecycle or critical temporary entry |
| SchemaAcceptance.EntryAcceptedExactly | crates/soroban-storage-macros/src/lib.rs:194-250 | an entry is accepted if and only if every storage attribute is a list of options, the last lifecycle named exists, and it is not temporary where `critical` is said |
| SchemaAcceptance.ExpandExactly | crates/soroban-storage-macros/src/lib.rs:82-282 | the macro accepts a token list if and only if it spells at least one entry and all its entries are acceptable |
| SchemaAcceptance.ExpandsInOrder | crates/soroban-storage-macros/src/lib.rs:194-300 | an accepted schema gives one accessor per entry in order, with the name, types, lifecycle, criticality, bumping and policy its tokens say |
| SchemaAcceptance.ExpandErrors | crates/soroban-storage-macros/src/lib.rs:82-282 | what each error says about the first entry that is not acceptable |
| LintParser.ScanMarks | crates/soroban-storage-lints/src/parse.rs:434-455 | the keyword loop of one attribute, which is given up unless consumed to its end |
| LintParser.ReadAttrs | crates/soroban-storage-lints/src/parse.rs:428-462 | the attribute loop: first lifecycle wins, unreadable attributes are skipped whole |
| LintParser.ParseStorageDecl | crates/soroban-storage-lints/src/parse.rs:384-476 | the linter's declarations of a schema |
| SchemaAgreement.DeclsExactly | crates/soroban-storage-lints/src/parse.rs:384-476 | one declaration per entry of the schema in order, and none when the tokens do not spell entries |
| SchemaAgreement.LinterReadsExactly | crates/soroban-storage-lints/src/parse.rs:434-455 | of any attribute, accepted by the macro or not, the linter reads exactly the comma-separated lists of words |
| SchemaAgreement.DeclExactly | crates/soroban-storage-lints/src/parse.rs:428-476 | the declaration of any entry: the first lifecycle read or `persistent`, critical where read, the type without blanks |
| SchemaAgreement.NormalizeExactly | crates/soroban-storage-lints/src/parse.rs:138-141 | normalising drops the blanks and nothing else |
| SchemaAgreement.ParsersAgreeExactly | crates/soroban-storage-lints/src/parse.rs:384-476 | on every schema the macro accepts the linter finds the same entries in order, and agrees on an entry if and only if its attributes name lifecycle and criticality in a way both read |
| SchemaAgreement.TidySchemasAgree | crates/soroban-storage-lints/src/parse.rs:384-476 | full agreement when at most one attribute per entry names a lifecycle and none puts a lifecycle or `critical` beside an `=` option |
| SchemaAgreement.PolicyBesideLifecycleIsMisread | crates/soroban-storage-lints/src/parse.rs:434-457 | a temporary entry with a policy in the same attribute is persistent to the linter |
| SchemaAgreement.LastAttributeDecidesBump | crates/soroban-storage-macros/src/lib.rs:194-210 | whether accessors bump is decided by the last storage attribute alone |
| SchemaAgreement.LastPolicyIsMerged | crates/soroban-storage-macros/src/lib.rs:194-210 | the merged policy is the last that any storage attribute names |
| SchemaAgreement.NoBumpIsDropped | crates/soroban-storage-macros/src/lib.rs:199-207 | a concrete `no_bump` that a later policy attribute undoes |
| LintVisitor.FnVisitor.PushChain | crates/soroban-storage-lints/src/parse.rs:293-313 | a chain is recorded exactly when its receiver names a lifecycle and goes through `storage` |
| LintVisitor.FnVisitor.VisitExpr | crates/soroban-storage-lints/src/parse.rs:316-358 | the visitor appends the pure collector's chains, notes TTL calls, and returns the loop depth to where it was |
| LintVisitor.ScanFn | crates/soroban-storage-lints/src/parse.rs:268-285 | the same for a whole function body |
| LintVisitor.ChainsAreExact | crates/soroban-storage-lints/src/parse.rs:287-358 | the recorded chains are exactly the storage chains of the body, `inside_loop` exactly those below a loop node |
| LintVisitor.ChainsAreRecordedOnce | crates/soroban-storage-lints/src/parse.rs:287-358 | each is recorded once, in pre-order |
| LintVisitor.TtlCallIsExact | crates/soroban-storage-lints/src/parse.rs:317-339 | a body counts as managing TTLs if and only if some method or path call at any depth names a TTL method |
| LintScope.ChainRecordedExactly | crates/soroban-storage-lints/src/parse.rs:45-55 | a method call at the end of a chain, anywhere in a body, is recorded if and only if it is one of the nine storage methods and the chain goes through `storage` and names a lifecycle, of which the nearest counts |
| LintScope.BelowLoopExactly | crates/soroban-storage-lints/src/parse.rs:343-357 | inside a loop is below a `for`, `while` or `loop` at any distance |
| LintScope.ManagesExactly | crates/soroban-storage-lints/src/parse.rs:58 | a function manages TTLs if and only if a method or path call in it has one of the four names |
| Words.SplitRaw | crates/soroban-storage-lints/src/rules.rs:79-99 | the splitting loop gives the words of the input, left to right, covering every alphanumeric |
| Words.SplitsExactly | crates/soroban-storage-lints/src/rules.rs:79-99 | these are exactly the maximal alphanumeric runs that break where an upper-case or numeric character follows a lower-case or numeric one |
| Words.SplitIsUnique | crates/soroban-storage-lints/src/rules.rs:79-99 | the description determines the list of words |
| Words.WordsSpellTheInput | crates/soroban-storage-lints/src/rules.rs:79-99 | they concatenate to the alphanumeric characters of the input and none is empty |
| Words.TypeLooksCritical | crates/soroban-storage-lints/src/rules.rs:103-107 | true if and only if some word of the name lower-cases to a hint |
| Words.SingleWordIsCritical | crates/soroban-storage-lints/src/rules.rs:55-79 | a name of one lower-case word is critical if and only if it is one of the eighteen hints |
| LintRules.FindKeyVariant | crates/soroban-storage-lints/src/rules.rs:241-259 | the key variant behind references and then calls |
| LintScope.NamedKeyExactly | crates/soroban-storage-lints/src/rules.rs:241-259 | the key is the last segment of a path behind calls behind references, and there is none otherwise |
| LintRules.RunAll | crates/soroban-storage-lints/src/rules.rs:521-542 | all rules in order, without the ignored ones |
| LintRules.FoundExactly | crates/soroban-storage-lints/src/rules.rs:323-516 | a rule reports a chain if and only if its test holds of it in some scanned function |
| LintRules.IgnoringIsFiltering | crates/soroban-storage-lints/src/rules.rs:521-542 | ignoring rules leaves out exactly their findings and keeps the order |
| LintRules.RunsEveryRule | crates/soroban-storage-lints/src/rules.rs:521-542 | the output has exactly the findings of every rule that is not ignored |
| LintRules.RulesInOrder | crates/soroban-storage-lints/src/rules.rs:521-542 | the findings of the six rules come in their order |
| LintRules.FindingsFollowChains | crates/soroban-storage-lints/src/rules.rs:323-516 | within a function a rule reports the chains that fail, in source order and once each |
| LintMeaning.MissingTtlMeans | crates/soroban-storage-lints/src/rules.rs:357-386 | reported if and only if the chain is a raw temporary or persistent write in a function that manages no TTL at any depth |
| LintScope.RawCallMissesTtlExactly | crates/soroban-storage-lints/src/rules.rs:357-386 | a raw call anywhere in a function is reported if and only if it is one of the three writes, outside the instance, and no TTL method is called in the function |
| LintMeaning.MismatchMeans | crates/soroban-storage-lints/src/rules.rs:323-349 | where the entry's lifecycle is read alike, a chain is reported if and only if it is in some body, not on the instance, and the macro's accessors keep the entry it names in another lifecycle |
| LintMeaning.MismatchRightExactly | crates/soroban-storage-lints/src/rules.rs:241-349 | for every accepted schema and chain the verdict is the documented one if and only if no entry is named, or the chain is on the instance and the entry too, or the entry's lifecycle is read alike, or the chain is on neither of the two lifecycles read |
| LintMeaning.MismatchRightByName | crates/soroban-storage-lints/src/rules.rs:241-349 | it is right on all accesses to a name outside the instance if and only if the first entry of that name has its lifecycle read alike, and on all accesses if and only if that entry lives in the instance besides |
| LintMeaning.InstanceAccessIsMissed | crates/soroban-storage-lints/src/rules.rs:241-244 | an instance access to a persistent entry, anywhere in a body, that is not reported |
| LintMeaning.MisreadSchemaRaisesFalseAlarm | crates/soroban-storage-lints/src/rules.rs:323-349 | a correct access, anywhere in a body, that is reported because the schema was misread |
| LintMeaning.TtlExceededMeans | crates/soroban-storage-lints/src/rules.rs:442-516 | the two TTL rules report a chain if and only if it is an extension of their lifecycle in some body, at any depth, with a literal third argument above the maximum |
| LintMeaning.TtlExceededMeansClamped | crates/soroban-storage-lints/src/rules.rs:442-516 | a literal extension of a body is reported if and only if the storage library would clamp its target |
| LintMeaning.InstanceCheckRightExactly | crates/soroban-storage-lints/src/rules.rs:482-496 | an instance extension of a body with its two arguments is never reported, so that the verdict is the documented one if and only if the target is not above the maximum |
| LintMeaning.InstanceExtensionIsMissed | crates/soroban-storage-lints/src/rules.rs:490-493 | `env.storage().instance().extend_ttl(t, 7000000)` anywhere in a body is not reported |

## Left out

- RPC clients, XDR, strkeys, signing, metrics serving, command lines, JSON loading and report printing: input and output around the modelled logic. The TTL, last-poll and signer-balance gauges go with them; the counters are kept.
- `is_transient`: an arbitrary predicate on errors.
- `ledgers_until_critical` and the start-up check of the signer's balance: single comparisons for logging and start-up.
- `Keeper::run`: its endless loop is covered by the runs of `KeepAlive`, with waiting as closing ledgers.
- The restore planner: only its effect, a restore with the minimum TTL.
- Ledger numbers of the storage runtime are unbounded naturals; those of the keeper are 32-bit.
- The minimum TTL of a new temporary entry is a network parameter the repository does not name; it is a parameter of the host, between 1 and the temporary maximum.
- `TtlPolicy::days` is modelled where its products fit 32 bits.
- Token-stream code generation, spans and the Rust type and expression grammars: a type or a policy expression is one opaque token, and the place of a chain is its path in the syntax tree.
- `temporary_critical_type` and `instance_storage_bloat`: they rest on best-effort type resolution; the runner takes what they find as given.
- LintRules.RunAll: the findings of `temporary_critical_type` and `instance_storage_bloat` are a parameter, an arbitrary function of the rule; the order of all rules and what is ignored are proved for any such findings.
- `scan_file`: the file-level facts it collects serve those two rules; a file is a list of function bodies and declarations.
- `require_auth` is membership in the set of addresses that authorised the call; the vault's addresses and amounts are stored as integers.
- Unicode character classes and lower-casing are parameters of the word splitter.
