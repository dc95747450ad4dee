# Sigil SDK: a verified model

Sigil guards an AI agent's Solana wallet with spending policies. This project models the parts of its
TypeScript SDK (and the on-chain accounts the SDK reads back) where correctness depends on many
operations together, and proves what they guarantee over every input and every run.

Main results:

- **Shield** (`Shield*.dfy`, `Inspector.dfy`). A context shared by `enforce()` and any number of concurrent
  signing calls, suspended at the simulation's `await`, is a step machine. In every run every interval of a
  limit's length, not just the current one, holds at most the limit; pruning is never observable within a day;
  local USD additions stay within the on-chain caps. Spend and rate limits are settled exactly: each bounds all
  runs if and only if its window is at most a day or it admits nothing. The hourly velocity ceilings are checked
  before the `await`: they hold in every run whose calls do not overlap there, and for overlapping calls exactly
  when the context's rate limit enforces them. Transfers of unknown mint escape a spend limit once recorded; the
  rate limit, which every context has (`sdk/kit/src/core/policies.ts:151-174`), rations them.
- **Transaction extraction** (`Extraction.dfy`) inverts compilation of a version 0 message through lookup tables.
- **Keys and intents** (`Base58.dfy`, `IntentDigest.dfy`). In-place Base58 decoding is the inverse of the
  standard encoder on all 32-byte keys; the canonical intent bytes determine the call.
- **Logs and feeds** (`BlockLog.dfy`, `BlockAttribution.dfy`, `BlockInfluence.dfy`, `ActivityPager.dfy`). The
  block-reason parser recovers the failing frame of every well-nested call trace from its printed log, and it is
  settled exactly which logs let a nested call choose the reported code; following cursors visits every
  signature exactly once.
- **Caches, stores and rings** (`AltCache.dfy`, `BalanceStore.dfy`, `AuditRing.dfy`, `SpendTracker.dfy`,
  `AgentOverlay.dfy`). Each agrees with an unbounded log, or with the chain within a lifetime, in every run.
- **Caps in seconds** (`SpendIntervals.dfy`, `AgentCap.dfy`, `WalletCaps.dfy`). The lengths of interval that the
  vault's daily cap and an agent's limit bound in every run are given exactly, just short of a day, with runs
  that spend almost twice as much. In every run of a wallet whose transfers pass both gates, both hold and the
  agents' ledgers together are the vault's.
- **Small cores** (`CauseChain.dfy`, `Portfolio.dfy`, `Concentration.dfy`, `UsdFormat.dfy`).

Objects the source mutates are classes whose methods are proved against functions on values; runs are sequences
of steps of those functions. Each reading of the clock is its own nondecreasing value, since the source reads it
several times within one operation. A JavaScript `Map` is a list of entries in insertion order. Lookup-table
fetches, simulation results, session binding, transaction histories and vault states are inputs. `Common.dfy`,
`Numerals.dfy`, `Decimal.dfy`, `Sorting.dfy` and `Modular.dfy` hold shared definitions.

Where code and comment disagree the code is followed: the known program errors run to 6118
(`sdk/kit/src/event-analytics.ts:302` says 6117), and the intent encoder keeps only the low 64 bits of an
amount. Two comments promise what the code does not do. The tracker is called exact over a rolling 24 hours
(`programs/sigil/src/state/tracker.rs:22-25`), which `SpendIntervals.DayExceedsCap` refutes. The fallback error
number is said never to come from a nested line (`sdk/kit/src/event-analytics.ts:292-295`), which
`BlockAttribution.NestedNumberTaken` refutes.

## Model

| member | source | states |
|---|---|---|
| `Inspector.AnalyzeInstructions` | sdk/kit/src/inspector.ts:86-202 | the single pass yields distinct programs in order of appearance, every recognised transfer and dangerous operation, and the total moved on the signer's authority |
| `Inspector.ProgramsAreAll` | sdk/kit/src/inspector.ts:86-202 | a program is listed exactly when some instruction calls it |
| `Inspector.TransferRecovered` | sdk/kit/src/inspector.ts:110-160 | reading an SPL Token transfer instruction, checked or not, gives back its mint, 64-bit amount and accounts, and flags nothing |
| `Inspector.BatchRecovered` | sdk/kit/src/inspector.ts:86-202 | analysis of any batch of transfers recovers all of them in order |
| `Inspector.AmountsFit` | sdk/kit/src/inspector.ts:209-212 | every reported amount is below 2^64 |
| `ShieldWindows.FaithfulLater` | sdk/kit/src/shield.ts:133-175 | kept entries that answer for the last day answer for every later cutoff as the full history does |
| `ShieldWindows.FaithfulPrune` | sdk/kit/src/shield.ts:163-175 | pruning keeps that agreement |
| `ShieldWindows.WindowStep` | sdk/kit/src/shield.ts:305-327 | admitting what fits the window ending now, stamped no earlier than the check, leaves every interval of that length within the limit |
| `ShieldWindows.CountStep` | sdk/kit/src/shield.ts:329-341 | the same for the number of transactions |
| `Shield.LimitsAccepted` | sdk/kit/src/shield.ts:305-327 | no limit is reported if and only if every limit's projected spend is within it, however many limits share a mint |
| `Shield.EvaluateAccepts` | sdk/kit/src/shield.ts:281-415 | evaluation reports nothing if and only if every instruction's program is allowed, every limit and the rate hold, the custom check passes and the stablecoin amount is within the transaction, vault and agent caps |
| `ShieldRuns.RecordedWithinChecked` | sdk/kit/src/shield.ts:305-327 | what is recorded under a mint never exceeds what was counted against it, unknown mints included; over all mints it is exactly the outgoing total |
| `ShieldRuns.StepKeepsInv` | sdk/kit/src/shield.ts:572-872 | every step of `enforce()`, a signer, pausing or syncing keeps limits, rate, caps and the invisibility of pruning |
| `ShieldRuns.RunKeepsInv` | sdk/kit/src/shield.ts:572-872 | so does every interleaving of such steps |
| `ShieldRuns.EveryWindowWithinLimit` | sdk/kit/src/shield.ts:305-327 | in every run every interval of a spend limit's window holds at most the limit of that mint |
| `ShieldLongWindows.LongWindowForgets` | sdk/kit/src/shield.ts:163-175 | for every longer window, positive amount and rate limit of at least three transactions, a run that fills the kept entries, lets a day pass and spends again exceeds the limit within the window |
| `ShieldLongWindows.BoundedExactlyToADay` | sdk/kit/src/shield.ts:305-327 | a spend limit bounds every interval of its window in every run of every context that has it if and only if its window is at most a day or its amount admits nothing |
| `ShieldLongWindows.RateForgets` | sdk/kit/src/shield.ts:163-175 | every rate limit of two or more transactions over a longer window lets one more than the maximum into some window |
| `ShieldLongWindows.SingleForgets` | sdk/kit/src/shield.ts:157-175 | one transaction per longer window is exceeded where a day passes between recording a transaction and pruning |
| `ShieldLongWindows.RateBoundedExactlyToADay` | sdk/kit/src/shield.ts:329-341 | a rate limit bounds every interval of its window in every run of every context that has it if and only if its window is at most a day or it admits nothing |
| `ShieldRuns.EveryWindowWithinRate` | sdk/kit/src/shield.ts:329-341 | in every run of every context, every interval as long as the rate window, or a day if that is shorter, holds at most the maximum number of transactions |
| `ShieldRates.RecordRationed` | sdk/kit/src/shield.ts:329-341 | recording a transaction of bounded weight keeps every rate window within the maximum number times that weight |
| `ShieldRates.BurstsBounded` | sdk/kit/src/shield.ts:329-341 | in every run, an interval of up to a day holds at most as many transactions as the rate windows it can touch allow |
| `ShieldRuns.PruningNeverObserved` | sdk/kit/src/shield.ts:133-175 | in every run, now and later, window sums and counts up to a day equal those over everything ever recorded |
| `ShieldRuns.CapsNeverExceeded` | sdk/kit/src/shield.ts:178-233 | in every run nothing is added locally before a sync; afterwards local additions are the stablecoin USD, on the configured network, of all transactions accepted since the last sync through either path, and once positive, spent plus remaining is the cap, for vault and agent |
| `ShieldVelocity.CeilingsHoldInSerialRuns` | sdk/kit/src/shield.ts:786-871 | under every setting, simulated or not, both ceilings hold over every hour of every run in which no call is checked while another is suspended |
| `ShieldVelocity.OverlappingSpendRationed` | sdk/kit/src/shield.ts:786-871 | however calls overlap, every rate window of every run holds at most the maximum number of transactions times the spend ceiling |
| `ShieldVelocity.CeilingsHoldExactly` | sdk/kit/src/shield.ts:976-1010 | for every setting and rate limit, both ceilings hold over every hour of every run, however its calls overlap, if and only if no call can be suspended past its check, or the rate limit allows no more transactions in an hour than the ceiling and, where spend has a positive ceiling, at most one |
| `ShieldUnknownMints.UnknownMintsRationed` | sdk/kit/src/shield.ts:305-341 | in every run of every context, each rate window holds at most the maximum number of transactions times a limit's amount, its mint and unknown mints together |
| `ShieldUnknownMints.NamedTransfersCovered` | sdk/kit/src/shield.ts:305-327 | where every submitted transfer names its mint, a limit also bounds its mint and unknown mints together over every interval of its window |
| `ShieldUnknownMints.UnknownMintsReachRation` | sdk/kit/src/shield.ts:850-858 | that ration is reached: for every limit and rate limit some run records it in full at one instant |
| `ShieldUnknownMints.CoversExactly` | sdk/kit/src/shield.ts:305-341 | a limit covers unknown mints in every run of every context with a given rate limit if and only if that rate limit lets at most one transaction into the limit's window |
| `ShieldObjects.ShieldState.GetSpendInWindow` | sdk/kit/src/shield.ts:133-138 | one pass over the entries gives the filtered sum of the mint at a single clock reading |
| `ShieldObjects.ShieldState.GetTotalSpendInWindow` | sdk/kit/src/shield.ts:140-145 | the same over all mints |
| `ShieldObjects.ShieldState.GetTransactionCountInWindow` | sdk/kit/src/shield.ts:147-150 | one pass counts the stamps at or after the cutoff of a single clock reading |
| `ShieldObjects.ShieldState.Prune` | sdk/kit/src/shield.ts:163-175 | above the threshold, each array drops exactly the entries older than a day at its own clock reading |
| `ShieldObjects.ShieldState.RecordSpend` | sdk/kit/src/shield.ts:152-155 | the object's state becomes the modelled record, stamped and pruned at readings in order |
| `ShieldObjects.ShieldState.RecordTransaction` | sdk/kit/src/shield.ts:157-160 | likewise for a transaction |
| `ShieldObjects.ShieldState.RecordStablecoins` | sdk/kit/src/shield.ts:613-623 | local additions grow by the outgoing stablecoin USD when a synced state and a network are known |
| `ShieldObjects.ShieldState.SyncFromOnChain` | sdk/kit/src/shield.ts:178-184 | replaces the baseline, clears local additions and keeps the network unless given |
| `ShieldObjects.ShieldState.RecordAll` | sdk/kit/src/shield.ts:852-871 | everything an accepted transaction records, through either path |
| `ShieldObjects.ShieldContext.CheckPrograms` | sdk/kit/src/shield.ts:288-303 | one violation per program outside the allowlist and the system programs, in order |
| `ShieldObjects.ShieldContext.CheckLimits` | sdk/kit/src/shield.ts:305-327 | one violation per exceeded spend limit, each judged at its own clock reading |
| `ShieldObjects.ShieldContext.CheckCaps` | sdk/kit/src/shield.ts:370-412 | the per-transaction, vault and agent cap violations of the outgoing stablecoin amount |
| `ShieldObjects.ShieldContext.EvaluateInstructions` | sdk/kit/src/shield.ts:281-415 | all rules in order over one analysis |
| `ShieldObjects.ShieldContext.Check` | sdk/kit/src/shield.ts:540-570 | a paused context denies everything; nothing is recorded |
| `ShieldObjects.ShieldContext.Enforce` | sdk/kit/src/shield.ts:572-629 | is exactly one `Enforce` step of the machine, and throws exactly when the step does not admit |
| `ShieldObjects.ShieldContext.CheckVelocity` | sdk/kit/src/shield.ts:976-1010 | passes exactly when both hourly ceilings allow the transaction |
| `ShieldObjects.ShieldContext.BeginSigning` | sdk/kit/src/shield.ts:786-871 | is exactly one `Proceed` step of the machine: denied by the ceilings, suspended for simulation, or checked and recorded at once |
| `ShieldObjects.ShieldContext.SignAfterSimulation` | sdk/kit/src/shield.ts:830-871 | is exactly one check-and-record step of the machine |
| `Extraction.ExtractInstructions` | sdk/kit/src/shield.ts:911-971 | the two passes and the index resolution, with one warning per index out of bounds |
| `Extraction.AppendPass` | sdk/kit/src/shield.ts:937-957 | one pass appends the resolved addresses of all lookups in order |
| `Extraction.TableAt` | sdk/kit/src/shield.ts:921-957 | the built table holds every account at the index the message format gives it: static keys, then all writables, then all readonlys |
| `Extraction.ExtractInvertsCompile` | sdk/kit/src/shield.ts:911-971 | if all tables are cached and indexes in bounds, extraction returns the compiled program, account and data lists, without warnings |
| `Extraction.CompilationUnambiguous` | sdk/kit/src/shield.ts:911-971 | a message is the compiled form of at most one instruction list |
| `Base58.AlphabetOrder` | sdk/kit/src/canonical-encode.ts:34-42 | the digit order is that of the alphabet string |
| `Base58.MulAddValue` | sdk/kit/src/canonical-encode.ts:62-78 | one character multiplies the accumulated value by 58 and adds the digit |
| `Base58.MulAddTop` | sdk/kit/src/canonical-encode.ts:62-78 | the top accumulated byte stays nonzero |
| `Base58.Accumulate` | sdk/kit/src/canonical-encode.ts:62-78 | the in-place loops compute that step; every carry stays below 58, so one byte at most is pushed |
| `Base58.PrefixStep` | sdk/kit/src/canonical-encode.ts:62-78 | after each character the bytes hold the value of the prefix read so far |
| `Base58.WriteOut` | sdk/kit/src/canonical-encode.ts:79-83 | the output is the leading zero bytes followed by the accumulated bytes, most significant first |
| `Base58.Decode32` | sdk/kit/src/canonical-encode.ts:52-90 | the whole decoder, its three errors included, is base conversion that keeps leading zeros |
| `Base58.DecodeEncode` | sdk/kit/src/canonical-encode.ts:52-90 | decoding inverts the standard encoder on every 32-byte value |
| `Base58.EncodeDecode` | sdk/kit/src/canonical-encode.ts:52-90 | every accepted string is the encoding of a 32-byte value |
| `Base58.DecodeInjective` | sdk/kit/src/canonical-encode.ts:52-90 | distinct accepted strings are distinct keys |
| `IntentDigest.MetasInjective` | sdk/kit/src/seal/intent-digest.ts:354-358 | account bytes determine the accounts and where they end |
| `IntentDigest.IxInjective` | sdk/kit/src/seal/intent-digest.ts:350-362 | an instruction's bytes are self-delimiting |
| `IntentDigest.IxsInjective` | sdk/kit/src/seal/intent-digest.ts:350-362 | instruction-list bytes determine the list |
| `IntentDigest.HeaderInjective` | sdk/kit/src/seal/intent-digest.ts:335-349 | the fixed part determines network, keys, target and count, and the amount modulo 2^64 |
| `IntentDigest.SystemProgramIsZeros` | sdk/kit/src/seal/intent-digest.ts:230-233 | an omitted target is encoded as the system program |
| `IntentDigest.PlainIntentAccepted` | sdk/kit/src/seal/intent-digest.ts:192-382 | accepted inputs exist for every nonnegative amount, however large |
| `IntentDigest.EncodeInjective` | sdk/kit/src/seal/intent-digest.ts:192-382 | two accepted inputs are hashed as the same bytes if and only if they are the same call |
| `IntentDigest.LengthsWrap` | sdk/kit/src/seal/intent-digest.ts:350-362 | the bound on lengths is needed: moving 2^32 data bytes between instructions changes the call but not the encoding |
| `IntentDigest.AmountBound` | sdk/kit/src/seal/intent-digest.ts:346-346 | changing only the amount leaves the bytes unchanged if and only if it is the same modulo 2^64 |
| `IntentDigest.EncodeIntoBuffer` | sdk/kit/src/seal/intent-digest.ts:325-382 | the computed size is filled exactly, so the final size check never fails |
| `LogScan.NestedIgnored` | sdk/kit/src/event-analytics.ts:306-360 | inside frames of other programs nothing is ever found |
| `LogScan.ReentryGivesUp` | sdk/kit/src/event-analytics.ts:306-360 | re-entering Sigil inside its own top-level frame makes the parser leave that frame |
| `LogScan.TopLevelFrame` | sdk/kit/src/event-analytics.ts:306-360 | a top-level frame yields its own failure's known code, or failing that the last known Anchor number logged in it, or nothing |
| `LogScan.ScanTree` | sdk/kit/src/event-analytics.ts:306-360 | scanning any tree of frames finds the code of the first top-level frame that has one |
| `BlockLog.ParseBlockErrorCode` | sdk/kit/src/event-analytics.ts:306-360 | the loop over the log text is the scan of its classified lines |
| `BlockLog.HeadDetermines` | sdk/kit/src/event-analytics.ts:306-360 | a line headed by one program's id is never taken for another's |
| `BlockLog.LoggedTextInert` | sdk/kit/src/event-analytics.ts:306-360 | a logged line is never taken for an invocation, return or failure, whatever its text |
| `BlockLog.DepthReadBack` | sdk/kit/src/event-analytics.ts:363-369 | the printed invocation depth is read back for every program and depth |
| `BlockLog.CodeReadBack` | sdk/kit/src/event-analytics.ts:407-412 | the printed hexadecimal error code is read back for every program and code |
| `BlockLog.PrintedShape` | sdk/kit/src/event-analytics.ts:306-412 | printing a trace and classifying its lines gives the lines of its frame tree |
| `BlockLog.ParseRecoversFailingFrame` | sdk/kit/src/event-analytics.ts:306-412 | parsing the printed log of any well-nested trace gives the code of the first top-level Sigil frame with evidence of one: its known hex, else the last number printed anywhere inside it; Sigil frames below other programs and lines outside such frames play no part |
| `BlockLog.BlockReported` | sdk/kit/src/event-analytics.ts:306-412 | a top-level failure with a known code, without re-entry, is reported whatever was logged inside or follows |
| `BlockAttribution.NestedPlayNoPart` | sdk/kit/src/event-analytics.ts:292-295 | nested calls do not affect the answer for any trace whose failed top-level Sigil frames, without re-entry, have a known hex or logged their last number themselves |
| `BlockInfluence.SettledExactly` | sdk/kit/src/event-analytics.ts:292-360 | for every well-nested trace without re-entry, the answer is the same whatever nested calls did and logged if and only if no top-level frame, up to the first that has a code, is a failed Sigil frame without a known hex in which a call follows its own last numbered line |
| `BlockInfluence.FrameSettledExactly` | sdk/kit/src/event-analytics.ts:330-347 | for one failed Sigil frame: if and only if its hex is known or no call follows its own last numbered line |
| `BlockInfluence.PlantFirstFits` | sdk/kit/src/event-analytics.ts:330-347 | otherwise a variant whose calls log any given known code and succeed has that code as its answer |
| `BlockAttribution.NestedNumberTaken` | sdk/kit/src/event-analytics.ts:292-295 | for every known code, a number another program logged inside a frame that failed with an unknown hex is reported, although the frame's own lines give none |
| `BlockAttribution.AnchorReadBack` | sdk/kit/src/event-analytics.ts:399-404 | a decimal code after the marker is read back whatever surrounds it on the line |
| `BlockAttribution.FallbackReported` | sdk/kit/src/event-analytics.ts:330-347 | a top-level failure without a known hex is reported by the last number printed in its frame, whatever precedes it or follows the frame |
| `ActivityPager.GetVaultActivityPage` | sdk/kit/src/event-analytics.ts:626-713 | chunked fetching keeps signature order before the stable sort; the cursor is the last signature of a full page |
| `ActivityPager.FeedPermutes` | sdk/kit/src/event-analytics.ts:702-712 | a page is a newest-first permutation of the per-signature items and keeps history order among equal times |
| `ActivityPager.CursorAdvances` | sdk/kit/src/event-analytics.ts:626-660 | a returned cursor continues right after its page; without one the page reaches the end |
| `ActivityPager.PagesCover` | sdk/kit/src/event-analytics.ts:626-713 | pages from any cursor to any bound concatenate to exactly that part of the history |
| `ActivityPager.EverySignatureOnce` | sdk/kit/src/event-analytics.ts:626-713 | following cursors ends, visits every signature once, in order, for every page size, in a known number of requests |
| `ActivityPager.WholeFeedComplete` | sdk/kit/src/event-analytics.ts:626-713 | all pages together hold exactly the items of the whole history |
| `AltCache.Loader.constructor` | sdk/kit/src/alt-loader.ts:34-37 | an empty cache with the default lifetime and size where none is given |
| `AltCache.Loader.Begin` | sdk/kit/src/alt-loader.ts:45-66 | the live entries asked for, and the rest to fetch |
| `AltCache.Loader.Finish` | sdk/kit/src/alt-loader.ts:68-102 | stores the response, evicts oldest first down to the size, and merges it into the result |
| `AltCache.Loader.GetCachedAddresses` | sdk/kit/src/alt-loader.ts:109-113 | the table if its entry has not expired |
| `AltCache.Loader.Invalidate` | sdk/kit/src/alt-loader.ts:116-118 | empties the cache |
| `AltCache.StepKeepsInv` | sdk/kit/src/alt-loader.ts:45-118 | every step, at any overlap of calls, keeps each entry its own key's table, seen on chain within the lifetime |
| `AltCache.RunKeepsInv` | sdk/kit/src/alt-loader.ts:45-118 | so does every run |
| `AltCache.ResolveReturnsFreshTables` | sdk/kit/src/alt-loader.ts:45-103 | in every run each returned table was asked for and was on chain at most a lifetime before the call, whether or not its fetch failed |
| `AltCache.ReadReturnsFreshTable` | sdk/kit/src/alt-loader.ts:109-113 | in every run a synchronous read returns the key's own table, on chain within the lifetime |
| `AltCache.CacheStaysSmall` | sdk/kit/src/alt-loader.ts:83-90 | in every run the cache holds at most its size, nothing for a negative one, and no key twice |
| `AltCache.CompleteFetchIsComplete` | sdk/kit/src/alt-loader.ts:45-103 | a fetch that answers everything makes the result hold exactly the requested tables |
| `BalanceStore.BalanceSnapshotStore.Snapshot` | sdk/kit/src/balance-tracker.ts:178-194 | first snapshot becomes the baseline, a known timestamp is updated in place, a fresh one is appended and the oldest dropped above the limit |
| `BalanceStore.BalanceSnapshotStore.Clear` | sdk/kit/src/balance-tracker.ts:216-220 | forgets everything but the limit |
| `BalanceStore.BalanceSnapshotStore.ToJSON` | sdk/kit/src/balance-tracker.ts:222-240 | baseline, snapshots in map order and limit, integers as text; restoring the result gives the store back whenever its map and timestamp list agree |
| `BalanceStore.BalanceSnapshotStore.FromJSON` | sdk/kit/src/balance-tracker.ts:248-285 | rebuilds both structures in document order, zero for unreadable integers, 144 for a missing limit |
| `BalanceStore.RunReflectsLog` | sdk/kit/src/balance-tracker.ts:178-220 | after every run map and timestamp list agree and show exactly the last fresh insertions of an unbounded log with newest values; the baseline is its first snapshot |
| `BalanceStore.ReadersSeeWindow` | sdk/kit/src/balance-tracker.ts:200-210 | after every run first and latest are the ends of that window and their balances are never missing |
| `BalanceStore.JsonRoundTrip` | sdk/kit/src/balance-tracker.ts:222-285 | after every run serialising and restoring gives the same store |
| `BalanceStore.RestoreThenContinue` | sdk/kit/src/balance-tracker.ts:222-285 | restoring between two runs is the same as not having stopped |
| `Decimal.ReadShow` | sdk/kit/src/balance-tracker.ts:222-262 | every integer survives being written as decimal text and read |
| `AuditRing.OrderCircularEntries` | sdk/kit/src/audit-log.ts:115-132 | the reordered view of a raw buffer |
| `AuditRing.AuditLog.Append` | programs/sigil/src/state/audit_log_success.rs:258-265 | writes at head, advances it around the buffer and saturates the count |
| `AuditRing.LayoutHolds` | programs/sigil/src/state/audit_log_rejected.rs:70-77 | after any number of appends every slot, the head and the count are as the reader assumes |
| `AuditRing.ViewRefinesLog` | sdk/kit/src/audit-log.ts:104-148 | the view holds exactly the last entries appended, up to capacity, oldest first |
| `SpendTracker.TrackerAccount.Record` | programs/sigil/src/state/tracker.rs:226-248 | adds to the bucket of the current epoch, resetting a stale one, or fails leaving it unchanged |
| `SpendTracker.RecordReflects` | programs/sigil/src/state/tracker.rs:226-248 | every recorded spend keeps each slot equal to the ledger total of the last epoch it served |
| `SpendTracker.GetRolling24hUsd` | sdk/kit/src/state-resolver.ts:194-234 | the SDK's loop over the buckets, with its early exits and clamp |
| `SpendTracker.RollingIsExact` | sdk/kit/src/state-resolver.ts:194-234 | the rolling total is the ledger total of the last 144 epochs plus the proportional part of the one before, until its slot is reused |
| `SpendTracker.SdkMirrorsChain` | programs/sigil/src/state/tracker.rs:256-306 | the program's own total and the SDK's are equal in every state the program can be in |
| `SpendTracker.CapInvariant` | programs/sigil/src/instructions/agent_transfer.rs:182-221 | checking the rolling total before recording keeps the cap after every run of attempts |
| `SpendTracker.DailyCapHolds` | programs/sigil/src/instructions/agent_transfer.rs:182-221 | in every run of attempts, any 144 consecutive epochs hold at most the daily cap |
| `SpendIntervals.ShortIntervalsHold` | programs/sigil/src/instructions/agent_transfer.rs:182-221 | in every run, every interval of up to 85,800 seconds holds at most the daily cap |
| `SpendIntervals.DayExceedsCap` | programs/sigil/src/state/tracker.rs:250-306 | under any cap of at least two, on any day, three accepted positive spends put one unit less than twice the cap into 85,801 seconds, because the straddling slot is reused |
| `SpendIntervals.UnitsSpaced` | programs/sigil/src/instructions/agent_transfer.rs:136-221 | under a cap of one unit, accepted spends are at least 85,802 seconds apart in every run |
| `SpendIntervals.IntervalsBoundedExactly` | programs/sigil/src/state/tracker.rs:250-306 | for every cap, all intervals of a length are bounded by it in all runs if and only if it is zero or the length is at most 85,800 seconds, 85,801 for a cap of one unit |
| `SpendIntervals.DayWithinTwiceCap` | programs/sigil/src/instructions/agent_transfer.rs:182-221 | in every run, no 24 hours hold more than twice the cap |
| `AgentOverlay.AgentEntry.ZeroGapBuckets` | programs/sigil/src/state/agent_spend_overlay.rs:190-216 | clears exactly the slots of the hours skipped since the last write |
| `AgentOverlay.AgentEntry.RecordContribution` | programs/sigil/src/state/agent_spend_overlay.rs:353-386 | adds to the current hour's slot after clearing the gap, with its errors |
| `AgentOverlay.LayoutHolds` | programs/sigil/src/state/agent_spend_overlay.rs:353-386 | after any successful contributions the 24 slots are the last 24 hours of the ledger |
| `AgentOverlay.GetAgentSpendingHistory` | sdk/kit/src/spending-analytics.ts:281-323 | walks back over the slots from the last write, keeps nonzero hours in the window and sorts them |
| `AgentOverlay.HistoryIsLastDay` | sdk/kit/src/spending-analytics.ts:281-323 | the history is exactly the nonzero hours of the current day's window of the ledger, strictly ascending, except that an entry last written in hour zero reads as empty |
| `AgentCap.GetAgentRolling24hUsd` | sdk/kit/src/state-resolver.ts:244-294 | the SDK's backward walk over the slots equals the program's own total for every entry and time, although only the program's window may start before zero |
| `AgentCap.AgentRollingIsExact` | programs/sigil/src/state/agent_spend_overlay.rs:223-297 | the total is exactly what the agent spent in the last 24 hours of the clock plus the proportional part of the hour before, until the current hour is written |
| `AgentCap.PermittedKeepsLimit` | programs/sigil/src/instructions/agent_transfer.rs:194-217 | a permitted spend keeps any 24 consecutive hours within the agent's limit |
| `AgentCap.LimitInvariant` | programs/sigil/src/instructions/agent_transfer.rs:194-217 | so in every run of attempts the entry reflects the ledger and the limit holds |
| `AgentCap.LimitBoundsExactly` | programs/sigil/src/state/agent_spend_overlay.rs:218-297 | for every limit, all intervals of a length are bounded by it in all runs if and only if it is not zero, which means none, and the length is at most 82,800 seconds, 82,801 for a limit of one unit |
| `WalletCaps.TransferKeepsGood` | programs/sigil/src/instructions/agent_transfer.rs:136-221 | a transfer that passes both gates keeps both rings, both caps and the agreement of the ledgers; any other changes nothing |
| `WalletCaps.BothCapsHold` | programs/sigil/src/instructions/agent_transfer.rs:136-221 | in every run of transfers by any agents, any 144 epochs hold at most the cap, any 24 hours of an agent at most its limit and the cap, and in each epoch the agents together spent what the vault recorded |
| `CauseChain.RedactCode` | sdk/kit/src/network-errors.ts:308-370 | the visited-set walk returns the code of a plain 16-hop search on every cause graph, cyclic or not |
| `CauseChain.ClosedFindsNothing` | sdk/kit/src/network-errors.ts:351-366 | once the walk meets an object again the rest of the search would find nothing |
| `CauseChain.SearchFindsNearest` | sdk/kit/src/network-errors.ts:343-367 | the search returns the code of the nearest coded cause within reach, and nothing only if there is none |
| `Portfolio.AddHistory` | sdk/kit/src/portfolio-analytics.ts:329-341 | one vault's history enters the epoch map |
| `Portfolio.GetPortfolioTimeSeries` | sdk/kit/src/portfolio-analytics.ts:309-353 | the sorted merge of all vault histories and the two budget sums |
| `Portfolio.MergeAgrees` | sdk/kit/src/portfolio-analytics.ts:319-341 | each epoch's total is the ledger's total at that time and the sum of its breakdown, and each vault's share is what that vault spent then |
| `Portfolio.SeriesConserves` | sdk/kit/src/portfolio-analytics.ts:309-353 | the points' totals add up to everything all vaults spent |
| `Portfolio.SeriesAgrees` | sdk/kit/src/portfolio-analytics.ts:309-353 | timestamps are unique and ascending, exactly those some vault reports, and every point agrees with the ledger in total and vault by vault |
| `Concentration.ComputeHerfindahl` | sdk/kit/src/math-utils.ts:33-47 | the index lies between 0 and 1 and is 1 exactly when one value is nonzero |
| `Concentration.ConcentrationBound` | sdk/kit/src/math-utils.ts:33-47 | in basis points the squares never exceed 10000 squared and reach it exactly when one value is nonzero |
| `UsdFormat.FractionShape` | sdk/kit/src/agent-bootstrap.ts:158-165 | the fraction is missing only for whole dollars, has at most six digits, never ends in zero and reads back as the micro-dollars |
| `UsdFormat.ParseText` | sdk/kit/src/helpers/parse-usd.ts:60-96 | the reader takes every text of its grammar to its amount and refuses other whole parts |
| `UsdFormat.ParseOnlyGrammar` | sdk/kit/src/helpers/parse-usd.ts:58-80 | every accepted text is in the grammar |
| `UsdFormat.ParseFormat` | sdk/kit/src/agent-bootstrap.ts:152-166 | a formatted amount reads back as itself if and only if it is below 10^21; only negative amounts have no text |
| `UsdFormat.FormatParse` | sdk/kit/src/helpers/parse-usd.ts:60-96 | formatting what was read gives the text without the trailing zeros of its fraction |
| `UsdFormat.FormatInjective` | sdk/kit/src/agent-bootstrap.ts:152-166 | distinct amounts print differently, however large |

## Left out

- SpendTracker.DailyCapHolds: bounds blocks of whole epochs, not a rolling 24 hours in seconds, which the code does not bound; `SpendIntervals` gives the exact lengths it does.
- IntentDigest.EncodeInjective: asks for fewer than 2^32 instructions, accounts and data bytes; JavaScript arrays are never longer, and at 2^32 data bytes the property fails (`IntentDigest.LengthsWrap`). Account roles are integers; the source's range check also lets fractions and NaN through and writes their low byte.
- ShieldRuns.EveryWindowWithinRate: of a window longer than a day it bounds a day; `ShieldLongWindows.RateBoundedExactlyToADay` shows that no more is true.
- ShieldUnknownMints.CoversExactly: limits of positive amount and window between zero and a day; longer windows do not bound even known mints (`ShieldLongWindows.BoundedExactlyToADay`).
- BlockInfluence.SettledExactly: traces and variants in which no top-level Sigil frame re-enters Sigil; one that does is evidence of nothing (`LogScan.ReentryGivesUp`).
- ShieldVelocity.CeilingsHoldInSerialRuns: runs in which `enforce()` also records, since it does not consult the ceilings.
- Concentration.ComputeHerfindahl: over nonnegative values and exact real arithmetic, not IEEE rounding.
- CauseChain.RedactCode: the name and message fields, and getters that answer differently at each access.
- Extraction.ExtractInvertsCompile: lookup tables missing from the cache, which shift later indexes, and a table that expires between the two passes.
- BalanceStore.BalanceSnapshotStore.Snapshot: a negative entry limit, with which the source's eviction loop never ends, and `BigInt` text other than plain decimal.
- Policy changes, `reset`, `checkpoint` and `rollback` in the middle of a run.
- Violation messages, suggestions, log warnings, staleness notices and the wording of errors.
- Session-binding inspection, simulation, signing, RPC, PDA derivation and SHA-256; the digest is modelled up to the hashed bytes.
- JSON text itself: serialisation is modelled as structured values.
- Addresses other than in Base58 and the intent digest are identities, not text.
- `computeScalarIntentDigest`, `digestsEqual`, `mergeAltAddresses`, `verifySigilAlt`: would only add easy members.
- `reconstructBlockedAttempt`, `buildActivityItem` and event descriptions: an item is an input of the pager.
- `getSpendingVelocity`, `aggregatePortfolio`, utilization and profit percentages, rankings, `Intl` formatting: floating point or single expressions.
- `isTransportError`: case by case classification.
- Per-protocol and per-recipient counters, the per-transaction maximum, fees, slot claims and the other on-chain instruction handlers; a vault's cap and its agents' limits stay fixed during a run.
