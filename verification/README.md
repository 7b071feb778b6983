# Pipelock enterprise: a verified model

Pipelock is an agent firewall. This project models the parts of it whose
correctness is hard to see from any one function and proves, with Dafny, what
they promise over every input, every run and every interleaving:

- **Counterparty replay protection.** `VerifyCounterparty` accepts a signed side
  record only after all other checks and then commits two keys, a nonce and a
  transfer, to a replay store. `ReplaySet.dfy` is the abstract store, a history
  of entries with per-key pruned flags. `ReplayLog.dfy` is its JSONL form over
  bytes (`Lines.dfy`), `ReplayHistory.dfy` the meaning of a history of commits
  and compactions. `MemReplayStore.dfy` and `FileReplayStore.dfy` are the two
  stores as classes; `StoreEquivalence.dfy` and `StoreRuns.dfy` prove that both
  refine the abstract set. `SharedStore.dfy` is the file store shared by any
  number of processes, as a step system with inodes, a path, advisory locks, torn
  writes, rename, reopen and crashes; `SharedStoreTheorems.dfy` states what holds
  in every reachable state, `SoloRuns.dfy` that undisturbed operations go through
  and `TwoCompactors.dfy` what goes wrong when two processes compact.
  `Counterparty.dfy` is the verifier and `ReplayProtection.dfy` the end-to-end
  theorem.
- **Time-driven state.** `Budget.dfy` (tumbling request budgets), `JwksCache.dfy`
  and `JwksConcurrent.dfy` (the dashboard's OIDC key cache, call by call and under
  overlapping calls), `AccessKeys.dfy` (the broker's stale-serving key cache).
- **Agent routing.** `AgentRouting.dfy` over `Addresses.dfy`: listener and CIDR
  validation, and source-address routing over a registry built in an arbitrary
  order.
- **Offline verifiers.** `CascadeLint.dfy`; `Provenance.dfy` with `Utf8.dfy`,
  `RecipeEncoding.dfy` (transform recipes and their length-framed encoding) and
  `ViewCacheKey.dfy` (the view cache's key); and the two duplicate-key JSON
  walkers in `JsonWalkers.dfy` and `JsonDocuments.dfy`.
- **Smaller concurrent and streaming pieces.** `ExemptionStore.dfy`,
  `Reaper.dfy`, `PrefixWriter.dfy`.

Objects that the program updates in place are classes here; each of their
methods is proved against a function of the old state, and the theorems are
about runs of those functions. Time is `int`. The JSON line codec, hashes,
signatures, transforms and key fetches are parameters: functions with stated
assumptions (`ReplayLog.Good`, `Counterparty.Injective`,
`Provenance.InjectiveHash`) or free outcomes. `Witnesses.dfy` shows that each
stated assumption can be met, and that under them some request passes.

Check everything with `dafny verify dfyconfig.toml`.

## Findings

Places where a property that one would expect fails, each with a lemma that
exhibits it and a lemma that says when the property does hold.

- Two compactors can make a store accept one entry twice within every horizon:
  the guard after the rename compares only sizes (`TwoCompactorsAcceptTwice`).
  With at most one compactor the guard is sound (`StaleHandleFailsClosed`,
  `SwapIsExact`).
- The horizon contract must cover verifications already in flight. Compacting at
  time T with the horizon that every verification starting from T on allows, a
  verification that started earlier still commits afterwards, and the store
  acknowledges the same record twice (`InFlightVerificationPassesTwice`, with the
  run). Those starting from T on are refused (same lemma), and under the contract
  nothing passes twice (`NothingPassesTwice`).
- The in-memory store forgets that a key was pruned, so a decreasing horizon
  makes it differ from the file store (`DecreasingHorizonSplitsStores`); with
  nondecreasing horizons they agree (`StoresAgree`).
- The budget's documentation speaks of a rolling window (enterprise/budget.go:17);
  the code tumbles, so a limit can be used twice within one window length
  (`TumblingNotRolling`), and never more than twice (`RateBound`).
- The key-ID throttle bounds calls that do not overlap exactly from a lifetime of
  thirty seconds up (`UnknownKeysAreThrottled`, `ShortLifetimeEscapesThrottle`).
  It does nothing before the first successful fetch (`EmptyCacheIsNotThrottled`),
  and since its gate and the start of a fetch are two critical sections, n
  overlapping calls to an expired cache can make n fetches at one instant
  (`OverlapEscapesThrottle`), though only one at a time (`OneFetchAtATime`).
- The broker's retry time never decides anything (`RetryTimeNeverDecides`), and
  stale keys are served without an age limit (`StaleKeysAreServedForever`).
- Expiring an exemption no later than its creation writes a file that no handle
  can load again (`BackdatedExpiryLocksTheStore`, exact condition in
  `RewrittenFileLoads`); renewing one can leave two active records for a scope
  (exact condition in `RenewKeepsActiveScopeIff`).
- The two JSON walkers disagree on empty composites at depth 64
  (`SomeDocumentsSplitTheWalkers`, `LimitsDifferOnDeepEmpties`).
- A failed `prefixWriter.Write` reports 0 bytes but keeps the chunk, so offering
  it again duplicates it (`RetryAfterFailure`).

## Model

| member | source | states |
|---|---|---|
| ReplaySet.IndexAnswers | enterprise/counterparty/replaystore.go:261-273 | The maps rebuilt from a log hold a key exactly when some entry has it unpruned, so a lookup answers exactly the replay question |
| ReplaySet.RetainedKeepsAnswers | enterprise/counterparty/replaystore.go:425-452 | Dropping entries with both keys pruned changes no accept/conflict answer |
| ReplaySet.CompactRetained | enterprise/counterparty/replaystore.go:425-452 | Compacting the retained log equals compacting the full history, with the same removed count; kept plus removed is what was there |
| ReplaySet.NoOpCompaction | enterprise/counterparty/replaystore.go:461-463 | If the log needs no rewrite, the compaction changes nothing in the whole history |
| ReplaySet.ValidEntryExactly | enterprise/counterparty/replaystore.go:558-605 | Which entries a store takes at all, field by field: the tokens, the hashes, the times and the pruned flags |
| ReplayLog.AppendEntry | enterprise/counterparty/replaystore.go:524-544 | Appending a whole line adds exactly that entry to what a reader sees |
| ReplayLog.AppendTorn | enterprise/counterparty/replaystore.go:228-259 | Appending part of a line leaves the complete lines alone and makes every reader refuse the file |
| ReplayLog.RewriteRoundTrip | enterprise/counterparty/replaystore.go:275-298 | A rewritten log reads back as the entries it was written from |
| ReplayLog.LegacyKeysExpireTogether | enterprise/counterparty/replaystore.go:291-298 | A legacy line without a transfer time keeps both keys on one clock, so they are forgotten together |
| ReplayHistory.ConflictsCharacterised | enterprise/counterparty/replaystore.go:68-82 | An entry is refused if and only if an earlier write of one of its keys has survived every compaction since |
| ReplayHistory.ReuseNeedsNewerTime | enterprise/counterparty/replaystore.go:68-82 | Under the horizon contract a forgotten key comes back only under a strictly newer signed time, per key and clock |
| MemReplayStore.MemReplayStore.CommitIfNew | enterprise/counterparty/replaystore.go:108-127 | Answer and whole new state of an in-memory commit: malformed, conflict on either key, or both keys and the entry added |
| MemReplayStore.MemReplayStore.Compact | enterprise/counterparty/replaystore.go:129-152 | Removed count and whole new state, for every order in which the entries are visited |
| FileReplayStore.FileReplayStore.Open | enterprise/counterparty/replaystore.go:191-222 | Opening succeeds exactly on a whole, parsable file and yields its exact index; a missing file is created empty |
| FileReplayStore.FileReplayStore.ReindexLocked | enterprise/counterparty/replaystore.go:228-273 | The incremental read loop from readOffset computes the index of everything read so far, and fails exactly on a shrunken, corrupt or torn file |
| FileReplayStore.FileReplayStore.CommitIfNew | enterprise/counterparty/replaystore.go:304-344 | Exact answer, file bytes and handle in every case, with any number of bytes reaching the file and any rename onto the path before the second inode check; failures leave the handle unhealthy |
| FileReplayStore.FileReplayStore.Rewrite | enterprise/counterparty/replaystore.go:415-452 | The rewriting loop produces the encoded compaction, its index, the removed count, and "unchanged" exactly when pruning is a no-op |
| FileReplayStore.FileReplayStore.Compact | enterprise/counterparty/replaystore.go:351-522 | Success exactly when healthy, current and whole and the size guard sees no difference, whatever another process appends or renames before the reopen; new file, index and count; an error leaves the old file or what followed a complete rename |
| StoreEquivalence.FileRefinesReplaySet | enterprise/counterparty/replaystore.go:261-273 | On every sequence of commits, compactions and restarts the file store gives the replay set's answers and counts |
| StoreEquivalence.MemRefinesReplaySet | enterprise/counterparty/replaystore.go:108-152 | So does the in-memory store when horizons do not decrease |
| StoreEquivalence.StoresAgree | enterprise/counterparty/replaystore.go:425-452 | The two stores agree answer by answer and count by count |
| StoreEquivalence.NewEntriesAreCommitted | enterprise/counterparty/replaystore.go:108-127 | After any sequence of operations an entry is malformed, a conflict or committed, by whether it is valid and whether an accepted commit of one of its keys has survived every compaction since; by either store |
| StoreEquivalence.RemovedIsWhatIsLost | enterprise/counterparty/replaystore.go:415-452 | The count that a compaction reports is by how many entries the file shrinks |
| StoreEquivalence.DecreasingHorizonSplitsStores | enterprise/counterparty/replaystore.go:129-152 | After a decreasing horizon the in-memory store refuses a nonce that the file store accepts |
| StoreRuns.RunFileStore | enterprise/counterparty/replaystore.go:191-522 | A FileReplayStore object driven through any sequence, restarts included, answers as the abstract replay set |
| StoreRuns.RunMemStore | enterprise/counterparty/replaystore.go:108-152 | A MemReplayStore object driven through any sequence with nondecreasing horizons answers as the abstract replay set |
| SharedStore.StepKeepsInv | enterprise/counterparty/replaystore.go:191-544 | Every step of every process, crashes and torn writes included, keeps the invariant: the file at the path is the retained history, every live handle's index is exact for its offset, locks and inode checks mean what they should |
| SharedStore.RunKeepsInv | enterprise/counterparty/replaystore.go:304-522 | Hence every interleaving of any number of processes with at most one compactor keeps it |
| SharedStoreTheorems.CommitOnlyIfNew | enterprise/counterparty/replaystore.go:304-344 | In every run a commit writes only to the file the path names, only if neither key is retained there, and adds exactly its entry; a torn write acknowledges nothing and closes the file to readers |
| SharedStoreTheorems.AnswerIsExact | enterprise/counterparty/replaystore.go:304-344 | After the inode check a commit is refused exactly when an earlier write has survived every compaction, and fails closed exactly on a torn file |
| SharedStoreTheorems.StaleHandleFailsClosed | enterprise/counterparty/replaystore_lock_unix.go:47-59 | A handle on a replaced inode, or a compactor that lost the rename-to-reopen race to an append, goes unhealthy and changes nothing |
| SharedStoreTheorems.UnhealthyStaysUnhealthy | enterprise/counterparty/replaystore.go:304-344 | An unhealthy handle changes nothing until the store is reopened |
| SharedStoreTheorems.SwapIsExact | enterprise/counterparty/replaystore.go:470-522 | A compactor that does adopt its new file has exactly that file's index |
| SharedStoreTheorems.ReopenRecovers | enterprise/counterparty/replaystore.go:191-259 | After any history of crashes, reopening fails exactly on a torn file and otherwise holds exactly the keys of the writes no applied horizon has passed |
| SoloRuns.SoloCommit | enterprise/counterparty/replaystore.go:304-344 | An uncontended commit of a new entry goes through: its line, its acknowledgement and the handle's new state |
| SoloRuns.SoloOpen | enterprise/counterparty/replaystore.go:191-222 | An uncontended open of a whole file succeeds with its index and releases the lock |
| SoloRuns.SoloAdopt | enterprise/counterparty/replaystore.go:476-522 | A compactor whose size guard holds adopts whatever file the path names |
| SoloRuns.SoloRewrite | enterprise/counterparty/replaystore.go:351-475 | An undisturbed compaction of a file that needs one renames exactly the compacted log into place, still holding the old lock |
| SoloRuns.SoloNoOpCompaction | enterprise/counterparty/replaystore.go:461-463 | An undisturbed compaction with nothing to rewrite leaves file, log and locks as they were and the handle healthy and up to date |
| SoloRuns.SoloCreate | enterprise/counterparty/replaystore.go:191-222 | An undisturbed open where there is no file creates an empty one and succeeds |
| SoloRuns.CrashFrees | enterprise/counterparty/replaystore_lock_unix.go:24-45 | A crash frees whatever the process held and touches nothing else |
| TwoCompactors.TwoCompactorsAcceptTwice | enterprise/counterparty/replaystore.go:496-510 | With two compactors some interleaving acknowledges one entry twice although all horizons honour the contract |
| Counterparty.VerifyCounterparty | enterprise/counterparty/counterparty.go:326-428 | With either store, a record passes if and only if its appraisal succeeds and its entry is new and written in full; the failure code in each case; a rejection by the checks or as a replay leaves the store unchanged |
| Counterparty.AppraisalIsExact | enterprise/counterparty/counterparty.go:326-421 | The check sequence succeeds exactly for licensed, complete requests in which both parties attest one payload under their own keys, a third key's signed record binds them and all times are fresh |
| Counterparty.AppraisalIsFresh | enterprise/counterparty/counterparty.go:466-511 | The committed entry field by field: signing key, parties and nonce of the record, the record's hash and time, no pruned flag, both clocks inside the freshness window, and a horizon forgets its transfer key exactly when one of the receipts is older |
| Counterparty.AppraisalBindsPayload | enterprise/counterparty/counterparty.go:595-704 | Both captures agree on payload, parties and directions, the signers differ, and the transfer key is made of exactly these |
| Counterparty.KeysAgreeExactly | enterprise/counterparty/counterparty.go:406-411 | Two appraised records share a nonce key exactly when they agree on signing key, parties and nonce, and a transfer key exactly when they agree on parties, payload, receipt IDs and both action hashes |
| Counterparty.FirstFaultIsReported | enterprise/counterparty/counterparty.go:326-421 | Against a reference list of everything that can be wrong, in order: the failure code is that of the first fault present, and a request without fault passes |
| Counterparty.ValidFieldsExactly | enterprise/counterparty/counterparty.go:548-580 | Which bindings and captures are well formed, field by field |
| Counterparty.TransferFixesItsTime | enterprise/counterparty/counterparty.go:466-511 | With injective hashes two requests with one transfer key have the same signed actions, hence the same retention time: re-signing cannot refresh it |
| Counterparty.ForgottenMeansStale | enterprise/counterparty/counterparty.go:396-421 | What a horizon within the verifier's own cutoff makes the store forget, the verifier rejects as stale: the same transfer and the same record |
| ReplayProtection.NothingPassesTwice | enterprise/counterparty/counterparty.go:396-421 | Over every run of any number of processes with crashes, one compactor and contract-abiding horizons, no transfer and no signed record takes effect twice |
| ReplayProtection.AcknowledgedPassesDiffer | enterprise/counterparty/replaystore.go:304-522 | Any two acknowledged verifications concern different transfers and different records |
| ReplayProtection.InFlightVerificationPassesTwice | enterprise/counterparty/replaystore.go:68-82 | A run of one process in which a verification appraised before a compaction commits after it, so that one record is acknowledged twice, although the horizon suits every verification that starts at or after the compaction; and each of those is refused |
| Budget.BudgetTracker.New | enterprise/budget.go:34-48 | No tracker exactly when there is no configuration or no limit |
| Budget.BudgetTracker.CheckAdmission | enterprise/budget.go:55-85 | Answer and whole new state of an admission, window reset included; what the answer is, see AnswersAreExact |
| Budget.BudgetTracker.RecordBytes | enterprise/budget.go:91-108 | Bytes are counted even when the limit is passed; error exactly then |
| Budget.BudgetTracker.RemainingBytes | enterprise/budget.go:113-130 | What is left and the refreshed state; what that number is, see AnswersAreExact and RemainingPredicts |
| Budget.BudgetTracker.RecordRequest | enterprise/budget.go:136-176 | All three limits are checked before anything is charged |
| Budget.BudgetTracker.TakeSnapshot | enterprise/budget.go:211-238 | The snapshot is what a mutating call at the same instant would see, without mutating |
| Budget.AnswersAreExact | enterprise/budget.go:55-205 | Over every run, from the log alone: when a call opens a new window, exactly which admissions, byte records and requests are refused, and how many bytes are reported as remaining |
| Budget.RemainingPredicts | enterprise/budget.go:113-130 | n more bytes are accepted exactly when -1 or at least n remain, except for n = 0 once the limit is passed |
| Budget.WindowBound | enterprise/budget.go:55-176 | Over every run, each window admits at most the configured requests, domains and bytes |
| Budget.RateBound | enterprise/budget.go:194-205 | Any interval no longer than the window holds at most twice each limit |
| Budget.LifetimeBound | enterprise/budget.go:194-205 | Without a window the limits bound the whole run |
| Budget.TumblingNotRolling | enterprise/budget.go:194-205 | Two admissions one tick apart under a limit of one |
| JwksCache.DashboardJwksCache.FetchAndStore | enterprise/cli/dashboard_oidc.go:486-513 | A fetched set is stored exactly when well formed, free of duplicate IDs and not empty |
| JwksCache.CollectExactly | enterprise/cli/dashboard_oidc.go:486-513 | A set is collected exactly when nothing is malformed and no usable ID repeats; it then maps each usable ID to its key |
| JwksCache.AcceptedExactly | enterprise/cli/dashboard_oidc.go:486-513 | A response is accepted exactly when it arrived, is well formed and holds a usable key |
| JwksCache.DashboardJwksCache.Key | enterprise/cli/dashboard_oidc.go:390-449 | Reply and whole new cache state in every case: served, throttled, refreshed, failed |
| JwksCache.FetchesExactly | enterprise/cli/dashboard_oidc.go:396-404 | Exactly when a call goes to the network, by cache, key, clock and last miss |
| JwksCache.KnownKeysAreNeverThrottled | enterprise/cli/dashboard_oidc.go:390-431 | A known key is served while the cache is current, and refreshed, never refused unasked, once it expired |
| JwksCache.UnknownKeyCall | enterprise/cli/dashboard_oidc.go:390-449 | Reply, keys, expiry and remembered miss after a call for an unknown key or to an empty cache |
| JwksCache.KeysAreCurrent | enterprise/cli/dashboard_oidc.go:390-449 | Every returned key belongs to a set fetched successfully less than one lifetime ago |
| JwksCache.UnknownKeysAreThrottled | enterprise/cli/dashboard_oidc.go:390-449 | In serialized calls three fetches for unknown key IDs span at least thirty seconds, however many calls arrive and however fetches end |
| JwksCache.ShortLifetimeEscapesThrottle | enterprise/cli/dashboard_oidc.go:390-449 | At every positive lifetime below thirty seconds three fit into a shorter span, so the bound is exact |
| JwksCache.EmptyCacheIsNotThrottled | enterprise/cli/dashboard_oidc.go:390-449 | While no fetch has succeeded every call goes to the network |
| JwksConcurrent.StepKeepsInv | enterprise/cli/dashboard_oidc.go:390-513 | Every critical section of every caller keeps: one owner of the fetch under way, the cache is the latest stored set, a successful refresh means a set stored since the shared fetch began |
| JwksConcurrent.OneFetchAtATime | enterprise/cli/dashboard_oidc.go:457-484 | Under every interleaving of calls at most one fetch is under way |
| JwksConcurrent.FoundKeysAreSourced | enterprise/cli/dashboard_oidc.go:390-513 | Under every interleaving a found key comes from a set stored less than a lifetime before the call or since the start of the fetch it shared |
| JwksConcurrent.UndisturbedCallIsSerialized | enterprise/cli/dashboard_oidc.go:390-513 | The steps of a call that no other overlaps amount to the serialized call |
| JwksConcurrent.WaiterSharesOutcome | enterprise/cli/dashboard_oidc.go:457-471 | A caller that waits gets the outcome of the fetch it waited for, error or key; one that gives up gets an error |
| JwksConcurrent.OverlapEscapesThrottle | enterprise/cli/dashboard_oidc.go:404-420 | For every n and every lifetime a run in which n overlapping calls for an unknown key make n fetches at one instant |
| AccessKeys.CfAccessVerifier.GetKeySet | cmd/pipelock-playground-broker/main.go:1535-1573 | Reply and whole new cache state in every case |
| AccessKeys.ServesLatestFetched | cmd/pipelock-playground-broker/main.go:1535-1573 | In every run a call returns the latest successfully fetched set and fails exactly when there has never been one |
| AccessKeys.RetryTimeNeverDecides | cmd/pipelock-playground-broker/main.go:1551-1556 | In every run the retry time is covered by the expiry, so its branch is never taken |
| AccessKeys.FetchesAreSpaced | cmd/pipelock-playground-broker/main.go:1558-1572 | With keys in hand the next fetch comes no sooner than five minutes after a success and thirty seconds after a failure |
| AccessKeys.NextFetchExactly | cmd/pipelock-playground-broker/main.go:1535-1572 | The next fetch comes with the first call whose clock has reached that time, both on entry and under the lock |
| AccessKeys.EmptyCacheAlwaysFetches | cmd/pipelock-playground-broker/main.go:1558-1564 | Before the first success every call fetches |
| AccessKeys.StaleKeysAreServedForever | cmd/pipelock-playground-broker/main.go:1559-1568 | A set of any age is served while fetches fail |
| Addresses.SharedAddressMeansNested | enterprise/config.go:169-184 | Two networks that share any address contain one another's base, IPv4-mapped forms included |
| Addresses.BaseTestIsExact | enterprise/config.go:169-184 | Comparing base addresses decides disjointness exactly |
| Addresses.SpellingDoesNotMatter | enterprise/config.go:31-50 | An IPv4 address and its mapped form bind the same and belong to the same networks |
| Addresses.WildcardsAreOne | enterprise/config.go:31-43 | An empty host, 0.0.0.0, :: and ::ffff:0.0.0.0 are one address on a port |
| Addresses.WildcardClashesOnItsPort | enterprise/config.go:57-79 | It clashes with every host on its port and with none on another |
| Addresses.SpecificHostsClashExactly | enterprise/config.go:31-79 | Other hosts clash exactly when they are the same name, or the same address in either spelling, on one port |
| Addresses.ParsedNetworkContains | enterprise/registry.go:224-231 | A parsed IPv4 network contains exactly the addresses that share its prefix, in either spelling |
| Addresses.ParsedIpv6NetworkContains | enterprise/registry.go:224-231 | A parsed IPv6 network likewise, and no IPv4 address |
| AgentRouting.WildcardPortConflict | enterprise/config.go:57-79 | The map scan answers the existential question, whatever its order |
| AgentRouting.FreeMeansNoConflict | enterprise/config.go:137-152 | "Not reserved and no wildcard clash" is exactly "no bind conflict with anything reserved" |
| AgentRouting.ValidateListeners | enterprise/config.go:137-152 | Accepts exactly listeners that are splittable and free of bind conflicts with everything reserved and with each other |
| AgentRouting.ValidateCidrs | enterprise/config.go:169-184 | Accepts exactly parsable networks that share no address with any other agent's |
| AgentRouting.ValidateAgents | enterprise/config.go:83-231 | Accepts exactly the configurations in which every agent's settings are in order and networks parse, no listener clashes with the fetch proxy, the metrics or the kill-switch address or with another listener, and networks of different agents share no address |
| AgentRouting.ValidateSettings | enterprise/config.go:111-229 | The name, mode, pattern, budget, rate-limit, domain and path checks of one profile |
| AgentRouting.AcceptanceExactly | enterprise/config.go:83-231 | The verdict built up agent by agent is the order-free one |
| AgentRouting.MatchCidr | enterprise/registry.go:224-231 | The loop returns the owner of the first matching network |
| AgentRouting.MatchIsTheOwner | enterprise/registry.go:54-98 | In an accepted configuration the match is an agent if and only if that agent's networks contain the address |
| AgentRouting.RoutingIsOrderIndependent | enterprise/registry.go:54-98 | Every visiting order of the agents gives the same routing for every address |
| AgentRouting.AcceptedListenersAreDistinct | enterprise/config.go:88-152 | Any two listeners of accepted agents are free of bind conflicts |
| CascadeLint.Lint | cmd/pipelock-verifier/cascade_lint.go:25-96 | Verdict of the two loops, the second in any map order |
| CascadeLint.LintVerdict | cmd/pipelock-verifier/cascade_lint.go:25-96 | Accepted if and only if no deferral or resolution has a malformed policy, every cascade resolution is backed by the latest admissions before it, within bound, unique and well linked, and reaches a root in depth-1 parent hops |
| CascadeLint.LintAcceptsExactlyForests | cmd/pipelock-verifier/cascade_lint.go:83-95 | The local depth check of the second loop is exactly the global forest property |
| CascadeLint.NoCycles | cmd/pipelock-verifier/cascade_lint.go:83-95 | In an accepted list nothing is its own ancestor |
| CascadeLint.CollectsExactly | cmd/pipelock-verifier/cascade_lint.go:25-82 | The first loop passes exactly when each receipt is sound against the ones before it |
| JsonWalkers.WalkDashboardValue | enterprise/cli/dashboard_oidc.go:636-698 | The recursive decoder loop computes the walk specification and leaves the decoder there |
| JsonWalkers.ScanProvenanceValue | cmd/pipelock-verifier/provenance.go:632-677 | The same for the provenance scanner, which leaves closing delimiters to the decoder |
| JsonDocuments.WalkDecides | cmd/pipelock-verifier/provenance.go:632-677 | On the tokens of any value a walk succeeds exactly if no object repeats a name and nesting is within the limit, and consumes exactly that value |
| JsonDocuments.AcceptsExactly | cmd/pipelock-verifier/provenance.go:617-677 | A token stream is accepted if and only if it is one such value and nothing else |
| JsonDocuments.AcceptedDocuments | cmd/pipelock-verifier/provenance.go:617-677 | In full: one value without repeated names, with at most 64 nested composites for the dashboard, at most 64 steps down for the scanner |
| JsonDocuments.LimitsDifferOnDeepEmpties | enterprise/cli/dashboard_oidc.go:636-698 | The two limits differ exactly on values with an empty composite at depth 64 |
| JsonDocuments.DashboardIsStricter | enterprise/cli/dashboard_oidc.go:621-698 | Whatever the dashboard walker accepts the provenance scanner accepts |
| JsonDocuments.SomeDocumentsSplitTheWalkers | enterprise/cli/dashboard_oidc.go:636-698 | Not the other way round |
| Utf8.BoundaryTestIsExact | cmd/pipelock-verifier/provenance.go:462-467 | On valid UTF-8 the one-byte test finds exactly the code-point boundaries |
| Utf8.ValidateLocations | cmd/pipelock-verifier/provenance.go:450-460 | Accepts exactly nonempty in-bounds intervals with both ends at boundaries |
| Utf8.LocatedSlicesAreText | cmd/pipelock-verifier/provenance.go:450-467 | An interval is accepted if and only if prefix, slice and suffix are valid UTF-8 and the slice is nonempty; they concatenate to the view |
| Utf8.ValidExactly | cmd/pipelock-verifier/provenance.go:198-201 | A byte string is valid exactly when it is the encodings of Unicode scalar values in a row (section 3 of RFC 3629) |
| Utf8.ScalarIsCharacter | cmd/pipelock-verifier/provenance.go:462-467 | The octets of every scalar value are one character, whatever follows |
| Provenance.CheckSignatures | cmd/pipelock-verifier/provenance.go:190-221 | Either every entry's bytes are valid UTF-8, verify under the fixture's key and decode to a proof within the limits, or the failure is that of the first entry that is not in order |
| Provenance.EntryStatusExactly | cmd/pipelock-verifier/provenance.go:192-217 | Exactly when an entry is good, structurally wrong or badly signed; good only if its signature verifies |
| Provenance.SignedMeans | cmd/pipelock-verifier/provenance.go:190-221 | A verified signature stage means that every signature verifies |
| Provenance.CheckChain | cmd/pipelock-verifier/provenance.go:223-234 | The chain loop decides exactly: positions from zero, "genesis" first, then the hash of the entry before |
| Provenance.LastEntryBindsChain | cmd/pipelock-verifier/provenance.go:190-234 | Two verified chains with equal last signed bytes are equal, length included |
| Provenance.WorkWithinLimits | cmd/pipelock-verifier/provenance.go:357-373 | Early exit decides the totals of references and matches exactly |
| Provenance.VerifyArtifacts | cmd/pipelock-verifier/provenance.go:375-408 | Mismatch exactly if some attested digest differs from a supplied artifact; what each other status says about all digests |
| Provenance.CollectSources | cmd/pipelock-verifier/provenance.go:410-431 | The collected map, or rejection for malformed, repeated or oversized input |
| Provenance.SourcesExactly | cmd/pipelock-verifier/provenance.go:410-431 | Collection succeeds exactly for well-formed entries with distinct IDs within the byte limit, and loses none |
| Provenance.SourcesAreSupplied | cmd/pipelock-verifier/provenance.go:410-431 | Every collected source is a supplied one, decoded and valid UTF-8 |
| RecipeEncoding.ShapeByParameter | internal/normalize/provenance.go:458-608 | The validation by kind is the same as by parameter: which operations may carry each parameter, and with which values |
| RecipeEncoding.BytesFollowVocabulary | internal/contract/receipt/provenance.go:344-403 | Kind bytes are the positions in the published vocabulary, from one |
| RecipeEncoding.OnlyTailedKindsHaveTails | internal/contract/receipt/provenance.go:318-333 | The eleven oldest kinds are encoded without a parameter tail, all later ones with one |
| RecipeEncoding.CanonicalRecipeBytes | internal/contract/receipt/provenance.go:276-335 | The appending loops produce the frame encoding of exactly the valid recipes |
| RecipeEncoding.FramesInjective | internal/contract/receipt/provenance.go:337-342 | A sequence of length-prefixed frames reads back in one way only |
| RecipeEncoding.OperationBytesInjective | internal/contract/receipt/provenance.go:300-335 | Valid operations with equal encodings are equal, with and without the parameter tail |
| RecipeEncoding.EncodingInjective | internal/contract/receipt/provenance.go:276-298 | Valid recipes with equal encodings are equal |
| ViewCacheKey.OperationPasses | internal/normalize/provenance.go:458-583 | No valid operation, whatever its selector, numbers and length bytes, contains or completes the bytes that end the encoding's header |
| ViewCacheKey.MarkOnlyInHeader | internal/contract/receipt/provenance.go:276-298 | Those bytes occur in an encoding nowhere behind its header |
| ViewCacheKey.NoEncodingEndsInAnother | internal/contract/receipt/provenance.go:276-298 | No recipe encoding is a proper suffix of another |
| ViewCacheKey.CacheKeyIsInjective | cmd/pipelock-verifier/provenance.go:281-286 | Equal cache keys come from equal source IDs and equal recipes, for every source ID, NULs included |
| Provenance.ApplyWithinBudget | internal/normalize/provenance.go:229-309 | A run is over budget exactly when its whole cost exceeds the limit; otherwise view and charge do not depend on the limit |
| Provenance.HitIsFresh | cmd/pipelock-verifier/provenance.go:285-299 | A lookup hits exactly when the same source and recipe came before, and yields the one view that applying the recipe again would; for every source ID |
| Provenance.ReproduceViews | cmd/pipelock-verifier/provenance.go:274-313 | Success: every supplied source's view is the one its recipe yields, every coordinate exact, the work of the distinct views charged once; failure: some source is to blame for just that failure |
| Provenance.ReproduceAll | cmd/pipelock-verifier/provenance.go:271-313 | The cached, budgeted loops succeed if and only if every supplied source has a valid recipe that yields a view with exact coordinates and the distinct views' total work is within the limit |
| Provenance.BlameIsReason | cmd/pipelock-verifier/provenance.go:281-310 | A reported failure is never an artefact of visiting order or caching: with it the fixture is not reproducible |
| Provenance.CheckCommitments | cmd/pipelock-verifier/provenance.go:326-349 | Success exactly when every view and match commitment recomputes; otherwise one of the named kind does not |
| Provenance.VerifyFixture | cmd/pipelock-verifier/provenance.go:179-355 | Never "verified"; every status of the report says what it claims: signatures verify, the chain holds, artifacts match, views were reproduced, coordinates are exact; "opened" only when every source was supplied, every view is the one its recipe yields and every commitment recomputed; a status is bad exactly when its stage failed; rejected only with a reason of the reported kind, and not rejected only when nothing speaks against it |
| ExemptionStore.Store.Reload | enterprise/dashboard/exemption_store.go:313-371 | Loads exactly files that are absent, empty, or a bounded array of valid records with unique IDs; otherwise memory is unchanged |
| ExemptionStore.Store.Mutate | enterprise/dashboard/exemption_store.go:128-247 | The file changes only by one complete successful mutation of what it held, for each of the five operations and a failing rewrite; what a mutation is, see the next rows |
| ExemptionStore.ApplySucceedsExactly | enterprise/dashboard/exemption_store.go:128-247 | When each operation succeeds, in terms of the records held |
| ExemptionStore.ApplyEditsItsRecord | enterprise/dashboard/exemption_store.go:128-247 | A successful operation edits exactly the record of its own ID, as named, and leaves every other record as it is and in its order |
| ExemptionStore.LifecycleOverTime | enterprise/dashboard/exemption_store.go:54-65 | A record is expired from its expiry on; before that unobserved until touched, active for thirty days after a touch, then stale |
| ExemptionStore.LoadsExactly | enterprise/dashboard/exemption_store.go:313-371 | Which files load, and as what |
| ExemptionStore.Store.FindByScope | enterprise/dashboard/exemption_store.go:252-278 | The first of the best records of the scope, unexpired before expired, then latest created; none exactly when the scope has no record |
| ExemptionStore.IdsStayUnique | enterprise/dashboard/exemption_store.go:128-247 | No operation duplicates an ID |
| ExemptionStore.RewrittenFileLoads | enterprise/dashboard/exemption_store.go:351-380 | A rewritten file loads again exactly if within the size bound and, for Expire, the time is after creation |
| ExemptionStore.BackdatedExpiryLocksTheStore | enterprise/dashboard/exemption_store.go:159-178 | A backdated Expire succeeds and leaves a file that does not load |
| ExemptionStore.UnreadableFileStays | enterprise/dashboard/exemption_store.go:299-330 | A file that does not load is never changed again by any run |
| ExemptionStore.ActiveScopeKept | enterprise/dashboard/exemption_store.go:128-155 | Every operation but Renew keeps at most one active record per scope |
| ExemptionStore.RenewKeepsActiveScopeIff | enterprise/dashboard/exemption_store.go:181-203 | Renew keeps it exactly if it leaves the record expired or no other record of the scope is active |
| ExemptionStore.NoLostUpdates | enterprise/dashboard/exemption_store.go:299-330 | Under every interleaving of any number of handles, crashes included, the file is the sequential application of the effective operations in lock order, with unique IDs |
| ExemptionStore.EveryRecordIsAccountedFor | enterprise/dashboard/exemption_store.go:128-330 | In every interleaving each record's presence and fields are those that the effective operations on its own ID leave, whatever was done to others |
| ExemptionStore.UndisturbedMutation | enterprise/dashboard/exemption_store.go:299-330 | The steps of one undisturbed mutation have the effect of the method, and take effect exactly when it succeeds |
| Reaper.ActiveIds | cmd/pipelock-playground-broker/main.go:463-472 | The returned set is the union of the two reads, or the leases alone without a pool |
| Reaper.TraceKeepsInv | cmd/pipelock-playground-broker/main.go:448-462 | In every run a live machine is always protected by the pool or a lease, and by its lease once adopted |
| Reaper.SnapshotMissesOnlyNewcomers | cmd/pipelock-playground-broker/main.go:448-472 | Whatever happens between the reads, a live machine is missing exactly if it came into being after the first read and holds no lease |
| Reaper.SnapshotKeepsTheLive | cmd/pipelock-playground-broker/main.go:448-472 | No machine live at both reads is missing |
| Reaper.WithoutPoolLeasesAreEnough | cmd/pipelock-playground-broker/main.go:463-466 | Without a warm pool every live machine is under lease |
| Reaper.SwappedReadsLoseAMachine | cmd/pipelock-playground-broker/main.go:452-462 | A run in which the swapped reads lose a machine that is live throughout |
| Reaper.SwappedReadsLoseExactly | cmd/pipelock-playground-broker/main.go:452-462 | Swapped reads lose a live machine exactly when it is adopted and leaves its handoff between them |
| Lines.SplitConcat | cmd/pipelock-playground-toyagent/main.go:466-481 | Reading a stream in two pieces carries over exactly the unterminated tail |
| Lines.SplitIsLossless | cmd/pipelock-playground-toyagent/main.go:466-481 | A stream is exactly its lines followed by its tail |
| Lines.SplitJoin | enterprise/counterparty/replaystore.go:228-259 | That decomposition is the only one |
| PrefixWriter.PrefixWriter.Write | cmd/pipelock-playground-toyagent/main.go:466-481 | Output, buffer and result of a write for any behaviour of the sink; the loop terminates and reports the full length exactly on success |
| PrefixWriter.WriteConserves | cmd/pipelock-playground-toyagent/main.go:466-481 | What a write sends and keeps is what it had and was given, failing or not |
| PrefixWriter.NothingIsLost | cmd/pipelock-playground-toyagent/main.go:466-481 | Over any chunks and any sink failures no byte is lost, duplicated or reordered; after a successful write exactly the complete lines of the stream are delivered |
| PrefixWriter.ChunkingDoesNotMatter | cmd/pipelock-playground-toyagent/main.go:466-481 | On a good sink output and buffer depend on the concatenation alone, and every write succeeds |
| PrefixWriter.RetryAfterFailure | cmd/pipelock-playground-toyagent/main.go:474-476 | After a failed write, offering the chunk again delivers it twice, offering nothing delivers it once |

## Left out

- SharedStore.StepKeepsInv: a crash is the crash of a process between any two steps or in the middle of a write; power loss and the durability of directory entries (the fsync calls) are not modelled
- SharedStore.RunKeepsInv: at most one process compacts, as the size-only guard requires; `TwoCompactorsAcceptTwice` shows why
- SharedStoreTheorems.ReopenRecovers: for an open that locked the inode the path names; an open that lost that race is caught by the inode check of its first operation
- FileReplayStore.FileReplayStore.CommitIfNew: entries carry no pruned flags, as the verifier's never do
- StoreEquivalence.StoresAgree: for nondecreasing horizons only, since the in-memory store keeps no pruned flags
- MemReplayStore.MemReplayStore.Compact: the timestamps stored beside the keys are never read and are not part of the stated state
- ReplayProtection.NothingPassesTwice: hashes of signed actions are assumed injective
- JwksCache.UnknownKeysAreThrottled: for calls that do not overlap and a lifetime of at least thirty seconds; `OverlapEscapesThrottle` and `ShortLifetimeEscapesThrottle` show why
- AgentRouting.ValidateAgents: the verdicts of the agent-name and trusted-domain validators and of the regex compiler are inputs; the visiting order is a parameter
- Provenance.VerifyFixture: strict JSON decoding, proof validation, signatures, hashing, commitments and what each transform yields are uninterpreted functions
- PrefixWriter.PrefixWriter.Write: the sink's outcome per call is a parameter; concurrent writers are not modelled
- Budget.RateBound: needs a monotone clock and no explicit Reset
- Deleting or truncating the replay log out of band while no process holds it open, which the program documents as a limitation
- Integers are unbounded: int64 overflow of byte counts and times is not modelled
- Legacy log lines without a transfer time are parsed but none occurs in a run, which starts from an absent file
- JSON, YAML, PEM, hex and base64 syntax, and the strict key-spelling scan of the provenance decoder
- License expiry in Lookup and LookupByName, request identity resolution, config merging and the license gate
- The Windows lock file, which has the Unix file's contract through foreign calls
- HTTP servers, OIDC claim checks, Turnstile, the Fly provider, key fetching itself
- Cryptographic primitives, the individual text transforms, and the rest of the internal packages for receipts, anchors, normalization and scanning
- Command-line plumbing, report printing, release tooling and load-test reporting, which would only add easy members
