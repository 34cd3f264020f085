# A verified model of the MPC node, its contract and its devnet tool

The repository runs a threshold-signature network: nodes keep stocks of precomputed assets (triples, presignatures),
a contract takes signing requests and lets the participants vote, attestations tie each node to the software it runs, and a
devnet tool funds and equips test accounts. This project models the state machines and algorithms behind those and proves
what holds over every input, every run and every interleaving.

- `ColdQueues`, `DoubleQueues`: the queue that hands out only assets whose participants are online, as imperative classes
  proved against value-level specifications.
- `Bytes`, `UniqueIds`, `AssetKeys`, `AssetColumns`, `AssetStores`: identifiers, database keys, range scans, reloading and
  cleaning, and the storage object over them.
- `AssetLedgers`, `AssetRuns`, `AssetLeaks`: all interleavings of tasks sharing a store, with crashes and restarts. One step is one locked
  call, one channel operation or one database commit. Every step refines one move of a small ledger, whose invariants give the
  results about whole runs.
- `AssetTasks`: what a task can rely on in those runs: first in, first out, a fresh condition, a bounded discard, an answer.
- `Funding`, `AccessKeys`: the devnet funding loop and the key-doubling loop.
- `EventLogs`: the replay of the measured event log and what the replayed register vouches for.
- `UpdateVotes`, `UpdateCleanups`, `PolicyVotes`, `PendingRequests`: the contract's votes and its pending requests as transition systems; a call
  that fails leaves the state as it was.

Some promises do not hold as they stand; each has a run or input that breaks it and its exact condition:

- A database may hold more than memory: draining the hot queue drops failing assets without deleting them
  (`AssetLeaks.DrainingLeaks` is the run, `AssetLeaks.RestartRecovers` how it heals). It happens exactly when a discard reaches
  the hot queue and an asset it examines there fails (`AssetStores.AssetStore.MaybeDiscardOwned`); memory is then exactly the
  stored assets that are neither dropped this way nor about to be deleted (`AssetRuns.DatabaseIsMemoryPlusLeaks`).
- Identifiers can repeat after a restart, with nothing stored or with an early identifier stored
  (`UniqueIds.RestartInTheSameSecondRepeats`, `UniqueIds.LoadedRestartRepeats`). They repeat exactly when the next range falls
  into the second of an earlier one and the counters overlap (`UniqueIds.RestartRepeatsIff`), and are later than all earlier
  ones exactly when the clock reads later than the last one's second or the last one is what was loaded
  (`UniqueIds.RestartIsLaterIff`).
- The funding loop runs forever exactly when what the stored funding accounts leave unpaid is too much for the configured
  account (`Funding.ConfiguredEndsIff`).
- A register does not determine the log when event names contain a colon (`EventLogs.ColonInNameIsAmbiguous`). Two names can
  share a register exactly when one extends the other by a colon, collisions aside (`EventLogs.NamesShareRegisterIff`).
- Cleaning stale update votes is noticed when an account that voted leaves and returns (`UpdateVotes.ReturningVoteIsNoticed`).
  Later answers can tell exactly when somebody who joins has a vote already (`UpdateCleanups.CleanupIsNoticedIff`).
- The timeout of an overridden yield removes the request of the newer one (`PendingRequests.OldTimeoutOrphansNewerYield`). A
  repeated request is safe exactly when no earlier yield of the same request is unfinished (`PendingRequests.SafeRequestIff`).

The clock, the condition fetcher, random names and keys, balances, database scans, hash functions and signature checks are
parameters. Counters that overflow are modelled as in a build with overflow checks that unwinds (`None` is the panic);
`UniqueIds.UncheckedPickIsLaterIff` says when the unchecked build agrees.

## Model

| member | source | states |
|---|---|---|
| `ColdQueues.TakeMeaning` | crates/node/src/assets.rs:94-112 | taking removes one satisfying asset from the bag, or moves one failing asset out of reach, or proves that no queued asset satisfies; the barriers stay truthful |
| `ColdQueues.DiscardMeaning` | crates/node/src/assets.rs:114-135 | discarding removes one failing asset, or confirms one, or proves that every queued asset satisfies; the barriers stay truthful |
| `ColdQueues.AddIfSatisfiedMeaning` | crates/node/src/assets.rs:137-152 | the asset is kept, in the ready section, if and only if it satisfies the condition; otherwise it comes back unchanged; one evaluation |
| `ColdQueues.AddIfNotSatisfiedMeaning` | crates/node/src/assets.rs:154-168 | the asset is kept, outside the available section, if and only if it fails the condition; one evaluation |
| `ColdQueues.RefreshKeepsSorted` | crates/node/src/assets.rs:74-92 | a fetch of the condition value, changed or not, due or not, keeps the barriers truthful and the contents |
| `ColdQueues.RefreshMeaning` | crates/node/src/assets.rs:74-92 | a fetch is made exactly when the last one is a second or more ago and is due again one second later; a changed value makes every asset unknown, an unchanged one moves nothing |
| `ColdQueues.ScanPotential` | crates/node/src/assets.rs:76-168 | the unknown section drops by one per scanning evaluation and grows only when the condition value changes |
| `ColdQueues.AmortisedScanCost` | crates/node/src/assets.rs:17-38 | over every run the scanning evaluations plus the final unknown section equal the initial one plus the resets |
| `ColdQueues.ScanCostBetweenChanges` | crates/node/src/assets.rs:17-38 | between two changes of the condition value, scanning evaluates at most `cold_available - cold_ready` times |
| `ColdQueues.RunKeepsSorted` | crates/node/src/assets.rs:591-607 | after every run of operations the barriers are ordered, everything before the ready barrier satisfies and everything past the available one fails the last fetched condition |
| `ColdQueues.ColdQueue.constructor` | crates/node/src/assets.rs:57-72 | an empty queue with the default condition value and a fetch due at once |
| `ColdQueues.ColdQueue.UpdateConditionValue` | crates/node/src/assets.rs:74-85 | the object moves to the refreshed value state and stays valid |
| `ColdQueues.ColdQueue.UpdateConditionValueIfDue` | crates/node/src/assets.rs:87-92 | the same, only at or after the due time |
| `ColdQueues.ColdQueue.TakeOne` | crates/node/src/assets.rs:94-112 | the in-place operation refines the value-level take, including the number of evaluations |
| `ColdQueues.ColdQueue.DiscardOne` | crates/node/src/assets.rs:114-135 | the in-place operation refines the value-level discard, including the number of evaluations |
| `ColdQueues.ColdQueue.AddIfConditionSatisfied` | crates/node/src/assets.rs:137-152 | the in-place operation refines the value-level add |
| `ColdQueues.ColdQueue.AddIfConditionNotSatisfied` | crates/node/src/assets.rs:154-168 | the in-place operation refines the value-level add |
| `DoubleQueues.DoubleQueue.constructor` | crates/node/src/assets.rs:207-223 | both queues start empty |
| `DoubleQueues.DoubleQueue.AddOwned` | crates/node/src/assets.rs:225-227 | the bag grows by exactly the asset, at the end of the hot queue |
| `DoubleQueues.DoubleQueue.TakeCold` | crates/node/src/assets.rs:235-246 | one locked attempt in terms of the whole bag |
| `DoubleQueues.DoubleQueue.TakeHot` | crates/node/src/assets.rs:247-270 | a received asset is handed out if it satisfies, else it stays in the bag; nothing else changes |
| `DoubleQueues.DoubleQueue.TakeOwned` | crates/node/src/assets.rs:229-272 | with a stable condition value it is a search in a bag: it answers if and only if some asset satisfies, removes only that one, and takes at most `cold_available` plus hot length passes; waiting means none satisfies |
| `DoubleQueues.DoubleQueue.ConfirmHot` | crates/node/src/assets.rs:296-308 | a received asset is confirmed if and only if it satisfies, else it alone leaves the bag |
| `DoubleQueues.DoubleQueue.DiscardCold` | crates/node/src/assets.rs:276-294 | examines exactly the smaller of n and the unconfirmed cold assets, drops failing ones only and reports precisely their identifiers |
| `DoubleQueues.DoubleQueue.DrainHot` | crates/node/src/assets.rs:295-314 | examines exactly the smaller of n and the hot length from the front; what it drops are exactly the failing ones among those, in order |
| `DoubleQueues.DoubleQueue.MaybeDiscardOwned` | crates/node/src/assets.rs:276-316 | examines exactly min(n, unconfirmed); no satisfying asset is lost; the unreported drops are exactly the failing hot assets among those examined; with n large enough exactly the satisfying ones remain, all ready, and the hot queue is empty |
| `DoubleQueues.NoneFailing` | crates/node/src/assets.rs:295-314 | there is no unreported drop exactly when every examined hot asset satisfies the condition |
| `DoubleQueues.DoubleQueue.CountsAddUp` | crates/node/src/assets.rs:318-329 | available plus offline is the size of the bag; the cold queue is its ready, its unknown and its offline assets, where all ready ones satisfy and all offline ones fail the last condition |
| `Bytes.FromOfBigEndian` | crates/node/src/primitives.rs:104-119 | reading back the big-endian bytes gives the number |
| `Bytes.BeforeIsNumeric` | crates/node/src/primitives.rs:104-119 | byte order of equally long big-endian strings is numeric order |
| `Bytes.RangeIsPrefix` | crates/node/src/assets.rs:419-434 | lying between the encodings of v and v + 1 is the same as starting with the encoding of v |
| `UniqueIds.FieldsOfNew` | crates/node/src/primitives.rs:29-55 | the packed number holds participant, timestamp and counter in 32, 64 and 32 bits, and the fields read back what was packed |
| `UniqueIds.NewOfFields` | crates/node/src/primitives.rs:29-55 | every identifier is packed from its own fields |
| `UniqueIds.LessIsFieldwise` | crates/node/src/assets.rs:920-946 | the order of identifiers is the lexicographic order of their fields |
| `UniqueIds.PickNewAfterIsLater` | crates/node/src/primitives.rs:63-76 | the next identifier has the same owner and is strictly greater |
| `UniqueIds.UncheckedPickIsLaterIff` | crates/node/src/primitives.rs:63-76 | without overflow checks it is greater exactly if the clock moved on or the counter has room, and otherwise the counter restarts at zero |
| `UniqueIds.ReservesIff` | crates/node/src/primitives.rs:63-92 | a reservation succeeds if and only if it asks for something and the counters left in its second, out of 2^32, are enough; it takes the first of them |
| `UniqueIds.ReserveRangeMeaning` | crates/node/src/assets.rs:465-475 | a reserved range has the requested length, one owner, one second, and starts after the last identifier |
| `UniqueIds.RangesNeverRepeat` | crates/node/src/assets.rs:399-416 | over every run with restarts and failed reservations, if the clock reads later after a restart, all ranges are increasing and no identifier is reserved twice |
| `UniqueIds.NeverReservedTwice` | crates/node/src/assets.rs:399-475 | so it is for every such run from the first start on |
| `UniqueIds.RangesAfterLoaded` | crates/node/src/assets.rs:399-416 | in one process, whatever the clock says, the reserved ranges are increasing and all above the greatest identifier loaded from the database |
| `UniqueIds.ReservedAfterLoaded` | crates/node/src/assets.rs:399-475 | so it is for every process, from whatever identifier it loads |
| `UniqueIds.PoisonedReservesNothing` | crates/node/src/assets.rs:465-475 | after an overflow, which panics under the lock, a process reserves nothing more |
| `UniqueIds.RestartReservesAgain` | crates/node/src/assets.rs:399-475 | after a restart a reservation succeeds again, if and only if the counters after the loaded identifier have room |
| `UniqueIds.RestartIsLaterIff` | crates/node/src/assets.rs:453-475 | whatever a restart loads, the next identifier is later than all earlier ones exactly when the clock reads later than the last one's second or the last one is what was loaded |
| `UniqueIds.RestartRepeatsIff` | crates/node/src/assets.rs:453-475 | whatever a restart loads, the next range repeats an identifier of an earlier range exactly when it falls into the same second and the counters overlap |
| `UniqueIds.RestartInTheSameSecondRepeats` | crates/node/src/assets.rs:453-475 | a run that loads nothing and hands out the same identifier twice |
| `UniqueIds.LoadedRestartRepeats` | crates/node/src/assets.rs:453-475 | a run that loads the first of two identifiers and hands out the second one again |
| `AssetKeys.DecodeInvertsMake` | crates/node/src/assets.rs:436-451 | decoding a made key gives back the identifier |
| `AssetKeys.MakeInvertsDecode` | crates/node/src/assets.rs:436-451 | a key that decodes is the key of what it decodes to, when its prefix is the domain |
| `AssetKeys.DecodesIff` | crates/node/src/assets.rs:445-451 | a key decodes to an identifier if and only if it is the identifier's 16 bytes after 8 bytes of domain, or after none |
| `AssetKeys.MakeKeyInjective` | crates/node/src/assets.rs:436-443 | different identifiers or domains have different keys |
| `AssetKeys.KeyOrder` | crates/node/src/assets.rs:436-443 | within a domain, key order is identifier order |
| `AssetKeys.KeyOrderAcrossDomains` | crates/node/src/assets.rs:436-443 | keys order by domain, then by identifier |
| `AssetKeys.RangeIff` | crates/node/src/assets.rs:419-434 | there is a prefix range for exactly the participant numbers below 2^32 - 1 |
| `AssetKeys.KeyInRangeIff` | crates/node/src/assets.rs:419-434 | a key lies in the prefix range exactly when participant and domain match; also which keys of the other shape would lie in it |
| `AssetKeys.MixedColumnsCollide` | crates/node/src/assets.rs:419-451 | a column mixing both key shapes breaks a domain-less scan |
| `AssetColumns.ScanExists` | crates/node/src/db.rs:124-143 | every column has a scan: the entries in range, each once, in key order |
| `AssetColumns.WritesById` | crates/node/src/assets.rs:495-516 | writing and deleting by key is writing and deleting by identifier, and other domains do not interfere |
| `AssetColumns.Load` | crates/node/src/assets.rs:399-416 | the scan becomes the hot queue in order with the last identifier, or fails exactly if some key does not decode |
| `AssetColumns.ReloadIsExact` | crates/node/src/assets.rs:385-417 | a reload of a one-shape column cannot fail, brings back exactly the owned assets in increasing order, and its last identifier is the greatest of them, none if there are none |
| `AssetColumns.CleanDb` | crates/node/src/assets.rs:357-379 | the loop deletes exactly the scanned entries with a participant that is not kept |
| `AssetColumns.CleanTouchesOnlyOwn` | crates/node/src/assets.rs:357-379 | cleaning affects exactly this owner's and domain's assets |
| `AssetColumns.CleanTwice` | crates/node/src/assets.rs:357-379 | cleaning with A then B is cleaning with their intersection; cleaning is idempotent |
| `AssetColumns.ReloadAfterClean` | crates/node/src/assets.rs:357-417 | a reload after cleaning brings back exactly the survivors |
| `AssetStores.AssetStore.constructor` | crates/node/src/assets.rs:385-417 | the loaded assets are queued in order; the cold queue is empty, with the given condition and its default value |
| `AssetStores.AssetStore.Open` | crates/node/src/assets.rs:385-417 | opening succeeds exactly if all scanned keys decode, with the given condition, its default value, an empty cold queue and no failed reservation; on a one-shape column it always succeeds, holds exactly the owned assets in order, and its last identifier is exactly the greatest owned one, none if there is none |
| `AssetStores.AssetStore.OpenThenTake` | crates/node/src/assets.rs:385-503 | opening a store and taking hands out an asset if and only if some stored asset of this participant satisfies the condition, and exactly that asset leaves the column |
| `AssetStores.AssetStore.GenerateAndReserveIdRange` | crates/node/src/assets.rs:453-475 | succeeds if and only if no reservation overflowed before, something is asked for and the counters left in its second, out of 2^32, are enough; the range is the next one, as in the identifier runs; an empty reservation changes nothing and an overflow fails this and every later call |
| `AssetStores.AssetStore.AddOwned` | crates/node/src/assets.rs:505-516 | the asset is stored by its identifier in this domain, other domains see no change, and memory grows by exactly this asset, at the end of the hot queue |
| `AssetStores.AssetStore.TakeOwned` | crates/node/src/assets.rs:493-503 | what is returned leaves memory and database; a waiting call changes neither |
| `AssetStores.AssetStore.MaybeDiscardOwned` | crates/node/src/assets.rs:518-536 | exactly the assets dropped from the cold queue leave the database; those dropped from the hot queue stay in it, and there are some exactly when an examined hot asset fails; no satisfying asset is lost, and with n large enough exactly those remain |
| `AssetStores.AssetStore.AddUnowned` | crates/node/src/assets.rs:538-547 | the asset is stored by its identifier in this domain, other domains see no change, and what this participant owns and would reload is as before |
| `AssetStores.AssetStore.TakeUnowned` | crates/node/src/assets.rs:549-562 | answers exactly when the asset is stored, with its value, and afterwards it is gone; what this participant owns is as before |
| `AssetLedgers.MovesKeepSafe` | crates/node/src/assets.rs:381-562 | every ledger move, whatever is stored or taken as unowned, keeps identifiers held once, returns unrepeated and assets conserved |
| `AssetLedgers.MovesKeepSound` | crates/node/src/assets.rs:381-562 | every ledger move that keeps owned and unowned apart keeps memory mirrored in the database, returns out of it, deletions and leaks accounted for and assets conserved |
| `AssetRuns.Refines` | crates/node/src/assets.rs:225-316 | every step of every task is one move of the ledger |
| `AssetRuns.StepKeepsValid` | crates/node/src/assets.rs:225-316 | every step keeps the barriers truthful, and a stopped process holds nothing |
| `AssetRuns.RunIsSafe` | crates/node/src/assets.rs:381-562 | every run from a safe state ends in a safe state |
| `AssetRuns.RunIsSound` | crates/node/src/assets.rs:381-562 | every run that keeps owned and unowned apart takes a sound state to a sound state |
| `AssetRuns.AnyDatabaseCanStart` | crates/node/src/assets.rs:385-417 | the runs considered start from any database, with any number of tasks |
| `AssetRuns.AtMostOnce` | crates/node/src/assets.rs:385-562 | over every interleaving with crashes, cleanings and restarts, whatever is stored or taken as unowned: no owned asset is returned twice, nothing returned is queued or carried by a task, and none of this participant's is still stored |
| `AssetRuns.HeldIsStored` | crates/node/src/assets.rs:385-562 | while owned and unowned are kept apart, nothing returned is stored and everything queued or carried by a task is stored with the same value |
| `AssetRuns.UnownedIsKept` | crates/node/src/assets.rs:538-562 | while owned and unowned are kept apart, an identifier never passed to `add_owned` stands for the same value after every run with crashes and restarts, until it is stored, taken or cleaned itself |
| `AssetRuns.AlwaysConserved` | crates/node/src/assets.rs:17-329 | in every reachable state the barriers are truthful and what entered equals hot plus cold plus in-flight plus taken plus discarded |
| `AssetRuns.DatabaseIsMemoryPlusLeaks` | crates/node/src/assets.rs:295-314 | while the process is up, an owned identifier is in memory if and only if it is stored, not about to be deleted and not dropped by draining the hot queue; what was dropped so is stored |
| `AssetLeaks.DrainingLeaks` | crates/node/src/assets.rs:295-314 | for every failing asset, a run from an empty database that leaves it stored, queued nowhere, carried by no task and not about to be deleted |
| `AssetLeaks.RestartRecovers` | crates/node/src/assets.rs:399-416 | a restart after that run brings the asset back |
| `AssetRuns.WaitingIsJustified` | crates/node/src/assets.rs:229-272 | after every run, an attempt on the cold queue hands out a queued satisfying asset, or lets the task try again, or makes it wait only if nothing in the cold queue satisfies |
| `AssetTasks.HotIsFifo` | crates/node/src/assets.rs:225-314 | over every interleaving, what was queued and then sent to the hot queue is received in exactly that order, and the rest is still queued |
| `AssetTasks.ColdFollowsOps` | crates/node/src/assets.rs:229-314 | over every interleaving, the cold queue is what the queue operations of the steps make of it |
| `AssetTasks.InterleavedScanCost` | crates/node/src/assets.rs:17-38 | over every interleaving, scanning evaluations plus the final unknown section equal the initial one plus the resets |
| `AssetTasks.StartsFresh` | crates/node/src/assets.rs:229-280 | a task that starts to take or discard fetches the condition value first; a restart begins with the default and a fetch due at once |
| `AssetTasks.ChecksFresh` | crates/node/src/assets.rs:87-168 | every check of an asset goes by a condition value at most a second old |
| `AssetTasks.DiscardStaysInBudget` | crates/node/src/assets.rs:276-314 | over every interleaving, a discard examines no more assets than it was asked to, and while it goes on what it has left is what it had less what it examined |
| `AssetTasks.DiscardLeavesColdIff` | crates/node/src/assets.rs:276-294 | a discard moves on to the hot queue exactly when it has nothing left or the whole cold queue is confirmed |
| `AssetTasks.DiscardStopsWhenDone` | crates/node/src/assets.rs:295-314 | over every interleaving, a discard that stops has examined all it was asked to or found the hot queue empty |
| `AssetTasks.DiscardIsCompleted` | crates/node/src/assets.rs:276-316 | from every valid state, a discard of up to n while the others rest and the condition value is stable comes to an end after examining exactly min(n, unconfirmed) |
| `AssetTasks.TakeIsAnswered` | crates/node/src/assets.rs:229-272 | from every valid state, a task that takes while the others rest and the condition value is stable ends up holding a queued satisfying asset if there is one, and waits on an empty hot queue otherwise |
| `AssetTasks.TasksComeBack` | crates/node/src/assets.rs:225-316 | a task that has sent, given up or committed is idle again, and one that wakes tries the cold queue again |
| `Funding.RefillReachesDesired` | crates/devnet/src/funding.rs:35-43 | a refill tops up to the desired balance exactly, is skipped exactly from 70 percent on, and never underflows |
| `Funding.CollectNeeds` | crates/devnet/src/funding.rs:75-96 | the plan lists the requests in order with what each is owed (a new account its initial balance, one below its limit what it lacks, any other nothing); it fails exactly if an account has more than it desires and is below its limit |
| `Funding.SumNeeds` | crates/devnet/src/funding.rs:97-103 | the sum that the 100 NEAR limit is checked against |
| `Funding.FundConserves` | crates/devnet/src/funding.rs:162-209 | what a pass sends is what leaves the funding account and what the remaining need drops by |
| `Funding.FundKeepsCover` | crates/devnet/src/funding.rs:162-185 | what was drawn on each loaded account plus what it has left is its usable balance |
| `Funding.FundKeepsExhausted` | crates/devnet/src/funding.rs:147-185 | an account is marked for deletion only when less than 0.1 NEAR above its reserve is left of it |
| `Funding.FundKeepsOrder` | crates/devnet/src/funding.rs:186-209 | finished requests, the one under way and the untouched ones stay in request order |
| `Funding.PassKeeps` | crates/devnet/src/funding.rs:105-210 | every pass, including replenishing and discarding ones, keeps order, cover and sources |
| `Funding.FundProgresses` | crates/devnet/src/funding.rs:162-209 | a pass on a usable account lowers remaining need plus number of waiting accounts, zero needs included |
| `Funding.EndsWhenReplenished` | crates/devnet/src/funding.rs:105-210 | the loop ends on every input if each replenished account has at least 0.2 NEAR |
| `Funding.MovesOnIff` | crates/devnet/src/funding.rs:106-160 | without funding accounts the loop gets on exactly if some later replenishment has at least 0.2 NEAR |
| `Funding.StoredAreUsedUp` | crates/devnet/src/funding.rs:147-209 | passes on stored accounts always come to an end, with nothing waiting or no account left, and what they leave unpaid depends on balances and needs alone |
| `Funding.ConfiguredEndsIff` | crates/devnet/src/funding.rs:105-210 | from any stored accounts, with one configured account, the loop ends if and only if the configured account's usable balance covers what the stored ones leave unpaid, with the minimum before each request |
| `Funding.FundLoop` | crates/devnet/src/funding.rs:105-210 | the imperative loop computes the iterated pass |
| `Funding.FundAccounts` | crates/devnet/src/funding.rs:49-217 | refuses exactly if a subtraction underflows or more than 100 NEAR are owed; otherwise the accounts come back in request order, each received exactly what it is owed (initial balance, or what an account below its limit lacks, or nothing), new ones were created once; every funding account is a stored one or one brought by a replenishment and keeps 0.1 NEAR of its balance if it pays; those deleted are the exhausted ones |
| `EventLogs.HexRoundTrip` | crates/attestation/src/attestation.rs:345-362 | decoding gives back what was encoded |
| `EventLogs.HexDecodeIff` | crates/attestation/src/attestation.rs:147-183 | a text decodes to bytes if and only if it spells them, two hex digits of either case for each |
| `EventLogs.VerifyEventLog` | crates/attestation/src/attestation.rs:147-183 | accepts if and only if every register-3 event has type 134217729, a hex payload and as digest the hash of 01 00 00 08, colon, name, colon, payload, and hashing each digest into a register of 48 zeros gives the expected digest; otherwise the first bad event decides: its type, its undecodable payload, or its digest, in this order |
| `EventLogs.VerdictMeaning` | crates/attestation/src/attestation.rs:147-183 | the same for the verdict on the filtered events |
| `EventLogs.VerdictIsUnique` | crates/attestation/src/attestation.rs:147-183 | the register-3 events alone determine the verdict; it accepts exactly sound events that replay to the digest |
| `EventLogs.OtherRegistersDoNotMatter` | crates/attestation/src/attestation.rs:153-155 | inserting or removing an event of another register changes nothing measured |
| `EventLogs.OtherRegistersMoveFreely` | crates/attestation/src/attestation.rs:153-155 | moving such an event changes nothing measured |
| `EventLogs.SameMeasuredSameEvent` | crates/attestation/src/attestation.rs:443-460 | logs with the same register-3 events answer every single-event query alike |
| `EventLogs.SingleEventMeaning` | crates/attestation/src/attestation.rs:443-460 | it is the only register-3 event of that name; it is missing if there is none and a duplicate if there are two or more |
| `EventLogs.RegisterDetermines` | crates/attestation/src/attestation.rs:147-183 | without collisions, and with names that can be told apart, equal registers mean equal sequences of names and decoded payloads |
| `EventLogs.ColonFreeNamesAreToldApart` | crates/attestation/src/attestation.rs:394-402 | names without a colon can be told apart |
| `EventLogs.AmbiguousIff` | crates/attestation/src/attestation.rs:394-402 | two names have colliding inputs for some payloads exactly when one extends the other by a colon |
| `EventLogs.NamesShareRegisterIff` | crates/attestation/src/attestation.rs:147-183 | for every hash, different names that cannot be told apart have sound events with the same register; names that can be told apart have none without a collision |
| `EventLogs.ColonInNameIsAmbiguous` | crates/attestation/src/attestation.rs:394-402 | two sound logs with one register and different contents, for every hash |
| `EventLogs.SingleEventDetermined` | crates/attestation/src/attestation.rs:443-460 | logs for one register agree on missing, duplicate or the event's content |
| `EventLogs.VerifyRtmr3` | crates/attestation/src/attestation.rs:332-340 | accepts exactly if the claimed register is the reported one, all register-3 events are genuine and they replay to it |
| `EventLogs.VerifyAppCompose` | crates/attestation/src/attestation.rs:185-362 | accepts exactly if the configuration passes, there is exactly one compose-hash event, its payload is the lower-case hex text of the compose hash, and that is 32 bytes long and the hash of the application description |
| `EventLogs.RegisterVouchesForApplication` | crates/attestation/src/attestation.rs:332-362 | two accepted descriptions for one reported register are the same application |
| `UpdateVotes.ProposedUpdates.constructor` | crates/contract/src/update.rs:148-156 | no votes, no entries, counter zero |
| `UpdateVotes.ProposedUpdates.Propose` | crates/contract/src/update.rs:163-171 | the proposal gets a number no entry has, and the table stays valid |
| `UpdateVotes.ProposedUpdates.Vote` | crates/contract/src/update.rs:173-190 | one vote per account, for an existing entry; a failed vote withdraws the old one |
| `UpdateVotes.ProposedUpdates.DoUpdate` | crates/contract/src/update.rs:192-224 | returns the entry and clears all votes and entries but not the counter |
| `UpdateVotes.ProposedUpdates.RemoveVotes` | crates/contract/src/update.rs:226-236 | exactly the given accounts lose their votes |
| `UpdateVotes.ProposedUpdates.RemoveNonParticipantVotes` | crates/contract/src/update.rs:238-250 | exactly the participants' votes remain |
| `UpdateVotes.CountVotes` | crates/contract/src/lib.rs:1304-1317 | the loop computes the tally |
| `UpdateVotes.TallyCountsSupporters` | crates/contract/src/lib.rs:1304-1317 | the tally is the number of distinct current participants voting for the update |
| `UpdateVotes.TallyDependsOnParticipants` | crates/contract/src/lib.rs:1304-1317 | votes of others cannot change a tally |
| `UpdateVotes.ProposalAnswered` | crates/contract/src/lib.rs:1243-1280 | a proposal is numbered if and only if a voter pays for it and the counter has room; its number is new, it is the only entry that changes and no vote does; otherwise it fails and nothing changes |
| `UpdateVotes.ProposeUpdateCall` | crates/contract/src/lib.rs:1243-1280 | the same for the call on the object, which is the step of the transition system |
| `UpdateVotes.VoteUpdateCall` | crates/contract/src/lib.rs:1286-1331 | the call on the object is the step of the transition system, and an error leaves the object as it was |
| `UpdateVotes.RemoveUpdateVoteCall` | crates/contract/src/lib.rs:1338-1347 | exactly a participant of the running protocol withdraws its own vote and no other |
| `UpdateVotes.RemoveNonParticipantVotesCall` | crates/contract/src/lib.rs:1456-1472 | in the running protocol exactly the votes of participants are left, otherwise nothing changes |
| `UpdateVotes.StepExplained` | crates/contract/src/lib.rs:1240-1347 | every call keeps: votes are standing votes for existing entries, the numbers answered only grow, nothing runs twice |
| `UpdateVotes.AlwaysExplained` | crates/contract/src/update.rs:164-250 | the same in every reachable state |
| `UpdateVotes.ExecutionNeedsQuorum` | crates/contract/src/lib.rs:1286-1331 | after any run, a vote executes an update if and only if a participant casts it for an existing entry and at least threshold distinct current participants stand for it, all with votes cast since the previous execution; it fails, changing nothing, if and only if the caller is no participant or the entry is missing, and else only records the vote |
| `UpdateVotes.CleanerStep` | crates/contract/src/lib.rs:1304-1322 | with and without stale votes every call gives the same answer |
| `UpdateVotes.CleanupsAreUnobservable` | crates/contract/src/lib.rs:1456-1472 | over whole runs with any changes of participants, cleaning at any points, or never, changes no answer as long as no newcomer has an old vote |
| `UpdateVotes.FixedParticipantsNeverNotice` | crates/contract/src/lib.rs:1153-1162 | for a fixed participant set cleaning is unobservable: same answers, same tallies |
| `UpdateVotes.CleanupKeepsTalliesIff` | crates/contract/src/lib.rs:1153-1162 | when the participants change, cleaning leaves every tally alone if and only if nobody who joins has a vote already |
| `UpdateCleanups.CleanupIsNoticedIff` | crates/contract/src/lib.rs:1153-1162 | when the participants change, some later calls are answered differently with and without a cleanup just before if and only if somebody who joins has a vote already |
| `UpdateCleanups.ProbeAnswer` | crates/contract/src/lib.rs:1286-1331 | when all others withdraw and threshold - 1 of them vote for an update, the last vote executes it exactly if the remaining participant's vote for it is still counted |
| `UpdateVotes.ReturningVoteIsNoticed` | crates/contract/src/lib.rs:1153-1162 | a run from an empty table with accepted thresholds in which an account votes, leaves and returns: the next vote executes the update without a cleanup in between and waits with one |
| `UpdateVotes.ValidateThreshold` | crates/contract/src/primitives/thresholds.rs:56-72 | accepts exactly thresholds of at least two, at most everyone and at least 60 percent |
| `PolicyVotes.ForeignChainPolicy.VoteForeignChainPolicy` | crates/contract/src/lib.rs:1015-1054 | counting and comparing with the number of participants is unanimity; applying clears the votes; a stranger changes nothing |
| `PolicyVotes.AlwaysExplained` | crates/contract/src/lib.rs:1015-1054 | in every reachable state the policy is the last one applied and the votes are exactly those cast since |
| `PolicyVotes.AppliedOnlyWhenAllAgree` | crates/contract/src/lib.rs:1011-1054 | after any run a ballot applies a policy if and only if every current participant's vote since the previous application is for it; otherwise it only records the vote of a participant |
| `PendingRequests.PendingRequests.AddRequest` | crates/contract/src/lib.rs:178-183 | the call is the request step of the system and keeps its invariant; the new yield is the newest and open one; it tells whether an open one was overridden |
| `PendingRequests.PendingRequests.Respond` | crates/contract/src/lib.rs:649-738 | the call is the answer step of the system and keeps its invariant; it resumes the open yield exactly for a permitted, verified answer to a request with one, and closes the request; else nothing changes |
| `PendingRequests.PendingRequests.ReturnAndCleanState` | crates/contract/src/lib.rs:1694-1717 | the call is the callback step of the system and keeps its invariant; a result it passes on is verified for this request; a timeout leaves the request without an open yield |
| `PendingRequests.StepExplained` | crates/contract/src/lib.rs:323-345 | every request, answer, expiry and callback keeps the properties below |
| `PendingRequests.AlwaysExplained` | crates/contract/src/lib.rs:649-738 | over every run: a request is pending exactly with the newest yield since it was last closed; each yield is resumed at most once, by a verified response to its own request, never once overridden |
| `PendingRequests.UnreachableStaysUnresumed` | crates/contract/src/lib.rs:729-737 | a yield that is not the pending one of its request is never resumed in any continuation |
| `PendingRequests.ResumableIff` | crates/contract/src/lib.rs:729-737 | a waiting yield whose request has an acceptable answer is resumed in some continuation if and only if it is the pending one |
| `PendingRequests.SafeRequestIff` | crates/contract/src/lib.rs:323-345 | a new yield stays the pending one for as long as it waits, in every continuation without another such request, if and only if no earlier yield of the same request was unfinished |
| `PendingRequests.OldTimeoutOrphans` | crates/contract/src/lib.rs:1694-1717 | any unfinished older yield has a continuation, its timeout, that leaves the newer one waiting and no longer pending |
| `PendingRequests.OldTimeoutOrphansNewerYield` | crates/contract/src/lib.rs:1694-1717 | a run in which the timeout of an overridden yield makes the newer one unresumable for ever |
| `AccessKeys.RoundsDouble` | crates/devnet/src/account.rs:310-354 | after i rounds there are min(n, k 2^i) keys, or still k if that is enough |
| `AccessKeys.LastRoundIsLeast` | crates/devnet/src/account.rs:310-354 | stopping at the target takes exactly the least number of doublings |
| `AccessKeys.ReachesIff` | crates/devnet/src/account.rs:313-315 | the target is reached if and only if there is a key to start from or nothing to add |
| `AccessKeys.OperatingAccount.constructor` | crates/devnet/src/account.rs:51-74 | the live keys are the stored keys |
| `AccessKeys.OperatingAccount.EnsureHaveNAccessKeys` | crates/devnet/src/account.rs:310-354 | ends with max(k, n) keys after exactly the least number of rounds; old keys stay in place, the key at position k 2^r + j is the one that key j added in round r, and live and stored lists stay the same |

## Left out

- Serialization and encryption of stored values, and decoding errors of values: assets are stored as values.
- The database engine: a scan is a parameter that satisfies `AssetColumns.IsScan`; failed commits abort the process and appear as crashes.
- AssetKeys.KeyInRangeIff: says nothing for participant number 2^32 - 1, whose upper bound overflows in the source.
- AssetColumns.ReloadIsExact: requires that a column does not mix keys with and without a domain, as the source's columns do not; `AssetKeys.MixedColumnsCollide` shows why.
- DoubleQueues.DoubleQueue.TakeOwned: one caller with a stable condition value; in other interleavings safety is stated (`AssetRuns`), and progress for a task whose competitors rest (`AssetTasks.TakeIsAnswered`).
- AssetRuns.AtMostOnce: `add_owned` gets each identifier at most once and `add_unowned` none of this participant's, as their callers see to; an own asset stored as unowned would be reloaded as owned.
- AssetRuns.HeldIsStored: for runs that do not store or take as unowned what was passed to `add_owned`, since the source does not check this; without it only `AtMostOnce` and `AlwaysConserved` hold.
- `take_unowned` by simultaneous callers: its read and its delete are separate, so nothing is claimed about two of them.
- `num_owned` and its siblings on the storage, which only forward to the queue's counts.
- Funding: fees, the wrap-around of the 128-bit sum in an unchecked build, and calls that fail.
- Funding.FundAccounts: requires that the loop ends; `EndsWhenReplenished`, `MovesOnIff` and `ConfiguredEndsIff` say when it does.
- EventLogs.RegisterDetermines: collision-freedom is required on the hashed inputs of the two logs only, since no function with 48-byte values is injective everywhere.
- Attestation checks other than the register and the application description: quote verification, report data, static measurements, key provider.
- The contract's protocol states, key events, resharing and thresholds: a phase change to any participants and threshold can happen at any time.
- Requests for derived keys and foreign transactions: the same life cycle with other checks, which are a parameter of `PendingRequests`.
- Gas, deposits and refunds; an insufficient deposit appears as an unpaid proposal.
- AccessKeys: the transactions that add keys on chain; the new keys are a parameter.
- Cryptography, networking, the TEE launcher, web servers, command-line tools and data transfer types.
