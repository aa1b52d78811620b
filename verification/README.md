# Nectar, verified

Nectar indexes the Cardano chain: ChainSync delivers blocks, eight workers store them in SQL tables, rollbacks delete
them again, and derived data (ADA pots, rewards, off-chain metadata, dashboard errors) is computed beside them. This
project models the parts of it whose correctness is not visible in any single function, and proves what they promise.

`dafny verify dfyconfig.toml` checks everything.

## What is modelled

| file | part of the program |
|---|---|
| `Chain`, `Rollback` | blocks, the rows they become, INSERT IGNORE on keyed tables, storage in chain order, the cascading rollback |
| `Ingest`, `IngestInvariant`, `IngestTheorems` | queue, workers, retries, rollbacks and restarts as a state machine; its invariant; holes, counters, replay |
| `Verdicts`, `Restarts` | what failures, duplicate-key verdicts and crashes lose, and that nothing else does: confluence, restart |
| `Indexer` | ProcessBlock, blockWorker and the rollback handler as code, each proved to be steps of that machine |
| `Slots` | slot, epoch and clock arithmetic across the Byron/Shelley switch, with the integer widths of the program |
| `StoredRows` | what the rows of a stored block say: columns of headers, transactions, inputs, outputs and assets |
| `Utxo`, `Fees` | the unspent-output anti-join against the ledger in chain order, the fees of an epoch, and the four pots |
| `Rewards` | reward splitting, what is stored of it, conservation |
| `Recency`, `Lru`, `StakeCache` | the LRU caches as linked list plus map, the recency list they refine, the cache in front of a table |
| `ErrorStore` | the bounded, deduplicating error store and its eviction |
| `Hub` | the WebSocket hub |
| `Fetcher` | the metadata fetch, retry and scan loop |
| `Mint` | printing and parsing of mint keys, and the rows written from them |
| `Retry` | retry loops and their delays |
| `Maps`, `Bytes`, `Text`, `Numbers` | tables as finite maps and their sums, hexadecimal, substring search, minimum and maximum |

The database is a finite map from primary key to row. A unit is one database transaction of ProcessBlock: number 0 is
the header, number n the n-th transaction of the block. How each unit ends (commit, an error known only by what its
text contains, or an error although the unit was stored because an acknowledgement got lost) is up to the environment,
with one restriction (`Ingest.Possible`): an error that blockWorker takes for a lost connection comes only from the
health check before a header, because RetryTransaction keeps such errors inside (`Retry.WorkerNeverRetries`).

Assumptions that the program does not enforce and that the theorems name:

- blocks have distinct hashes and strictly increasing slots, transactions distinct hashes (`Chain.ValidChain`);
  `blocks.slot_no` is unique, so a Byron boundary block that shares its slot with a main block is outside it;
- a rollback arrives with the queue drained and no worker busy (`Ingest.Quiet`), and its point is stored, lies above
  slot 0, or nothing is stored above slot 0: an unknown point at slot 0 over stored blocks is no step of the machine,
  because the handler then deletes nothing (`Rollback.RollbackExact`);
- a component that fails aborts its database transaction, although the code downgrades several such failures to warnings;
- deleting a block cascades to its transactions and their rows;
- Byron block types come below slot 4492800, the others at or above it (`Slots.EraTyped`).

## What does not hold

Where a property fails, the code was kept and the exact condition proved.

- **Confluence.** "No block failed" is not enough: the tables of a drained indexer are those of one worker if and only if
  every transaction passed over as a duplicate key is stored, every block given up as already processed has no
  transactions and its header stored, and what failed was stored all the same (`Verdicts.Confluence`). An "already
  processed" verdict loses every transaction of its block (`Verdicts.AlreadyProcessedLosesAll`), also when duplicate keys
  are only reported for stored units: the header's own acknowledgement may have been lost. Runs that lose a block:
  `Verdicts.DuplicateVerdictLosesBlock`; the exact outcome of such honest reports: `Verdicts.HonestConfluence`.
- **Restart.** The indexer resumes from its highest block and never fills holes below it (`Restarts.RestartExact`), so a
  crash while one worker holds a block and another has stored a later header loses the held block for good
  (`Restarts.RestartLosesHeldBlock`); the 20-slot margin only decides whether to start over. If the node no longer knows
  the resume block, or nothing is stored beyond the margin, everything is delivered again from the origin over the
  leftover tables: that ends with the whole chain exactly if each leftover row belongs to it
  (`Restarts.StartOverExact`), and a block whose slot a stale block holds is never stored
  (`Restarts.StaleSlotNeverStored`).
- **Rollback.** An unknown point at slot 0 deletes nothing, also when blocks are stored (`Rollback.RollbackExact`,
  for instance `Rollback.OriginKeepsBlock`).
- **Order of headers.** Two headers with the same slot do not commute (`Chain.HeadersCommute`).
- **Epochs.** Epoch by slot equals epoch by clock exactly where the block time does not overflow `time.Duration`
  (`Slots.EpochEqualsClock`); where the uint32 epoch number overflows as well, both can agree by chance
  (`Slots.BothOverflow`). The flagged slot of a Shelley epoch is 259200 slots after its first one
  (`Slots.OneFlaggedSlotPerEpoch`). A rollback to a block before that slot leaves a stale epochs row if and only if the
  block at the flagged slot had been stored (`Indexer.EpochRowsAfterRollback`, `Indexer.StaleEpochRow`). A rollback to a
  point that is not stored cleans up only the blocks: the epochs rows are right exactly if every header that wrote one is
  kept (`Indexer.EpochRowsAfterUnknownPoint`). Rewards written at a deleted boundary stay if its epoch is at most two
  above the target's (`Indexer.RewardRowsAfterRollback`).
- **Pots.** They sum to the supply exactly while the treasury is not negative and utxo, treasury and rewards do not
  exceed the supply (`Utxo.PotsSumToSupply`; totals that break it: `Utxo.ReservesOverflow`, `Utxo.TreasuryOverflow`). As
  written, the query for the unspent outputs (processors/ada_pots_calculator.go:34) joins on `tx_outs.tx_index`, a column
  that models/core.go:65 calls `index`: it fails on every call, and no pots row is ever stored. Everything said of the
  pots here is about the join on the output index that it means.
- **Rewards.** More than the pot can be paid, because a staked pool gets its fixed cost even if its share is smaller or
  it made no block (`Rewards.PoolPayout`, `Rewards.IdlePoolIsPaid`); conservation holds with that excess added
  (`Rewards.RewardConservation`). The rewards key leaves out the pool: a leader reward is stored exactly if
  no earlier pool paid the same address and there was no row before, and otherwise the pool's members lose their rewards
  too (`Rewards.SharedRewardAddress`). A member reward is stored exactly if no earlier pool stored one for the same
  address (`Rewards.SharedMember`), and of all epochs only the first positive treasury cut is stored, because the key
  leaves out the epoch (`Rewards.TreasuryStoredOnce`).
- **Cache.** It is filled before the commit. After an abort it still leaves the tables an uncached call would leave
  exactly when each cached value has a row (`StakeCache.AgreementAfterAbort`).
- **Error signatures.** A signature tells the error exactly if no part contains a colon
  (`ErrorStore.SignatureDetermines`).
- **Retries.** The first delay is not capped (`Retry.DelayExact`); the shifted delay overflows exactly from
  2^34 s on (`Retry.ShiftDelayExact`), which ten attempts never reach. The errors on which blockWorker would retry a block never
  come out of RetryTransaction (`Retry.WorkerNeverRetries`), so only the health check leads there.

## Model

| member | source | states |
|---|---|---|
| Chain.OneWriter | processors/block_processor.go:290-425 | on a valid chain no two units write the same primary key |
| Chain.SlotTakenByItself | models/core.go:12-12 | the unique slot is taken exactly by the block's own stored header |
| Chain.ApplyHolds | database/tidb.go:515-547 | committing a unit, for the first time or again, adds exactly its rows to what is stored |
| Chain.HeadersCommute | models/core.go:12-12 | two fresh headers can be stored in either order if and only if their slots differ |
| Rollback.StoreRangeHolds | processors/block_processor.go:247-287 | running any stretch of a block's units stores exactly those units, whatever was stored before |
| Rollback.CleanHolds | processors/block_processor.go:84-165 | one worker in chain order stores exactly every unit of the chain |
| Rollback.DeleteAfterHolds | migrations/20250301000001_add_cascade_deletes.sql:8-24 | the cascading delete removes exactly the units of the blocks above the slot, whatever subset is stored |
| Rollback.RollbackExact | main.go:1228-1304 | the handler leaves exactly the units at or below the point if and only if the point is stored, is above slot 0, or nothing is stored above slot 0 |
| Rollback.OriginKeepsBlock | main.go:1254-1257 | rolling back to the origin keeps any single stored block |
| Rollback.RollbackRestores | main.go:1905-1918 | rolling C + D back to the last point of C gives exactly the tables of C |
| Rollback.RollbackUndoesForward | main.go:1228-1354 | ... and storing E next gives the tables of C + E |
| IngestInvariant.InitInv | main.go:1109-1113 | the initial state of queue and workers meets the invariant |
| IngestInvariant.StepInv | main.go:1306-1526 | every delivery, dequeue, database transaction, verdict and rollback keeps the invariant: the queue is the next chain segment, dequeued blocks split disjointly into succeeded, duplicate, failed and held, stored units form prefixes, tables hold exactly the committed units |
| IngestInvariant.ReachableInv | main.go:1370-1526 | the invariant holds after every run of eight workers |
| IngestInvariant.KeepIsPrefix | main.go:1228-1304 | the blocks kept by a rollback are exactly those at or below its slot, and a prefix of the chain |
| IngestTheorems.StoredPartOfClean | main.go:1378-1526 | in every reachable state the tables are part of those of one worker, and all of them if and only if every unit was committed |
| Verdicts.AlreadyProcessedLosesAll | main.go:1469-1476 | in every reachable state nothing beyond the header of a block given up as already processed is stored |
| Verdicts.Confluence | main.go:1378-1526 | for every interleaving, retry pattern, rollback and restart: once drained, the tables equal those of one worker in order if and only if each skipped transaction is stored, each block given up has no transactions and its header stored, and each failed block was stored all the same |
| Verdicts.HonestConfluence | processors/block_processor.go:269-274 | if duplicate keys are reported only for units stored before or by the step itself, drained and without failed blocks the tables equal those of one worker if and only if no block with transactions was given up |
| Verdicts.HonestStepInv | main.go:1469-1476 | with such reports each skipped transaction and the header of each block given up are stored, after every step |
| Verdicts.DuplicateVerdictLosesBlock | main.go:1469-1476 | for any block there are runs without failures, ended by a duplicate-key error of its header, that lose it: with nothing stored, and, if it has transactions, with an honest report for the header that the step itself stored |
| IngestTheorems.BoundedHoles | main.go:1393-1519 | every block missing below a stored one is held, failed or given up as duplicate, so there are at most eight more than the latter two |
| IngestTheorems.CounterCountsSuccesses | main.go:1359-1367 | between rollbacks and restarts the block counter grows by exactly the number of newly succeeded blocks |
| IngestTheorems.StoredPrefix | processors/block_processor.go:247-284 | below a stored unit of a block every unit is stored or was passed over; without passed-over units the stored ones are a prefix |
| IngestTheorems.ReplaySafe | processors/block_processor.go:84-165 | aborting ProcessBlock after any prefix, any number of times, and then completing it gives the tables of one clean run |
| IngestInvariant.RestartInv | main.go:2077-2133 | a crash and a restart at the highest stored block keep the invariant; what no worker had finished counts as failed |
| Restarts.RestartExact | main.go:2077-2133 | eight workers that drain everything delivered after the resume point and lose nothing more end with the tables of the whole chain if and only if, at the crash, every block up to that point was stored completely |
| Restarts.RestartLosesHeldBlock | main.go:2105-2112 | for any two blocks there is a run with a crash after which no run without a rollback stores the earlier one |
| Restarts.RunSettled | main.go:1378-1526 | no worker ever touches a block again that was dequeued and let go, short of a rollback or restart |
| Restarts.StartOverExact | main.go:1254-1257 | delivery from the origin over any leftover tables ends with the tables of the chain if and only if each leftover row is a row of the chain |
| Restarts.StaleSlotNeverStored | models/core.go:12-12 | a block whose slot a stale block holds is never stored, whatever is delivered |
| Indexer.Indexer.ProcessBlock | processors/block_processor.go:84-165 | the code's tables, error and next answer are those of one attempt from the header on |
| Indexer.AttemptExact | processors/block_processor.go:84-165 | an attempt asks for one answer a unit and stops at the first it cannot pass over, which is the error returned; without an error it asks for exactly |txs| + 1 |
| Indexer.AttemptHolds | processors/block_processor.go:84-165 | it adds to any partial tables of the chain exactly the rows of the units whose answers stored them |
| StoredRows.StoredHeader | processors/block_processor.go:168-231 | a stored header has its slot, the true epoch and, if and only if the clock fits, the true time; its count is the number of transaction rows placed in the block once that is complete |
| StoredRows.CompleteBlock | processors/block_processor.go:247-287 | the transaction rows placed in a complete block are exactly those of its transactions |
| StoredRows.StoredTxRow | processors/block_processor.go:290-322 | a stored transaction row names its block and position, has the fee unless that is zero, and as output sum the sum of the output rows stored for it, absent exactly if there are none |
| StoredRows.StoredIn | processors/block_processor.go:533-580 | the input rows of a stored transaction are its inputs by position, no more, each with the output it spends |
| StoredRows.StoredOut | processors/block_processor.go:582-655 | the output rows are its outputs by position, no more, each with its amount |
| StoredRows.StoredOutsTotal | processors/block_processor.go:308-315 | and they sum to the amounts of the outputs |
| StoredRows.StoredAsset | processors/asset_processor.go:179-224 | the asset rows are the assets of its outputs, no more, each with its quantity |
| Indexer.UndisturbedAttempt | processors/block_processor.go:84-165 | without errors that is exactly the block stored in order, in one database transaction for each unit |
| Indexer.Indexer.BlockWorker | main.go:1378-1526 | n attempts lost to connection errors, at most three, then one whose end decides: stored, already processed, failed, or the extra attempt of worker 4; a connection error ends a block only at the fourth attempt; counters and last slot follow the verdict, and all of it is what the protocol's steps compute |
| Indexer.SurvivesFailedChecks | main.go:1442-1467 | if the first k <= 3 answers are failed health checks and the next |txs| + 1 commit, the worker ends succeeded with the block stored, after exactly those answers |
| Indexer.FourFailedChecks | main.go:1442-1467 | after four failed health checks the block is given up with nothing stored, worker 4 at its slot apart |
| Indexer.DriveIsAttempts | main.go:1401-1519 | driving a worker step by step is running an attempt to its end and reacting to its error |
| Indexer.DriveIsRun | main.go:1378-1526 | what BlockWorker computes is a run of the protocol made of this worker's steps only, with the same tables, verdict, counters and last slot |
| Indexer.Indexer.UpdateSequentialStats | main.go:1359-1367 | one more block, and its transactions |
| Indexer.Indexer.RollBackwardHandler | main.go:1228-1304 | the whole state of blocks, epochs, pots, parameters and rewards after the handler, found or not |
| Indexer.Indexer.CleanupOrphanedData | main.go:1920-1961 | exactly the rows of later epochs and slots are gone |
| Indexer.CleanupKeepsEpochs | main.go:1920-1961 | after a rollback to a stored target no kept block row has a later epoch than the target row, and every epochs row of a kept block is still there |
| Indexer.EpochRowsAfterRollback | main.go:1920-1961 | the epochs keys after a rollback to a stored target are exactly those written by the kept headers, if and only if the target is not before its epoch's flagged slot or no header at that slot was stored |
| Indexer.StaleEpochRow | main.go:1920-1961 | a chain of two blocks for which the row of a deleted block stays |
| Indexer.EpochRowsAfterUnknownPoint | main.go:1251-1260 | after a rollback to a point that is not stored the epochs keys are those of the kept headers if and only if every header that wrote one is kept |
| Indexer.RewardRowsAfterRollback | main.go:1954-1958 | a reward row of a boundary block outlives a rollback to a stored target if and only if the block's epoch is at most two above the target's |
| Indexer.EpochFiresOnce | processors/block_processor.go:1030-1049 | at most one block of a chain writes a Shelley epoch's row, and one does exactly if the chain has a block at the flagged slot |
| Slots.BlockTimeTrue | processors/block_processor.go:843-879 | the int64 block time is the true time if and only if the slot's duration fits |
| Slots.EpochModulo | processors/block_processor.go:813-841 | the epoch number is the true one modulo 2^32 |
| Slots.EpochEqualsClock | processors/block_processor.go:813-841 | for every slot the true epoch number equals the epoch by clock if and only if the block time does not overflow, and so does the uint32 one as long as it fits |
| Slots.BothOverflow | processors/block_processor.go:813-879 | a slot at which both overflow and agree |
| Slots.OverflowedClock | processors/block_processor.go:843-879 | an overflowed clock always reads too early an epoch |
| Slots.BlockTimeIncreasing | processors/block_processor.go:843-879 | block time strictly increases, by 20 s a slot up to the switch and 1 s after it |
| Slots.EpochMonotone | processors/block_processor.go:813-841 | epochs never decrease and rise by at most one a slot |
| Slots.OneFlaggedSlotPerEpoch | processors/block_processor.go:910-921 | from 208 on each epoch has exactly one flagged slot, 259200 slots after its first |
| Slots.ByronFlagIsEpochChange | processors/block_processor.go:910-921 | a Byron main slot above 0 is flagged exactly where the epoch changes |
| Utxo.LedgerMembers | processors/ada_pots_calculator.go:30-36 | the ledger in chain order holds exactly the outputs created and not spent, with their values |
| Utxo.AntiJoinIsLedger | processors/ada_pots_calculator.go:30-36 | outputs without a matching input, over the stored rows, are that ledger |
| Utxo.LedgerTotal | processors/ada_pots_calculator.go:30-36 | if outputs are spent at most once, the ledger's value is created minus spent |
| Utxo.UnspentTotal | processors/block_processor.go:541-561 | the stored total is the chain-order fold of created minus spent |
| Utxo.UnspentAfterIngestion | processors/ada_pots_calculator.go:30-36 | the same after any drained run of the workers that lost nothing |
| Utxo.PotsSumToSupply | processors/ada_pots_calculator.go:79-101 | the four stored pots sum to 45e15 if and only if the treasury is not negative and utxo, treasury and rewards do not exceed it; the other columns are the totals |
| Utxo.ReservesOverflow | processors/ada_pots_calculator.go:88-101 | totals that turn the reserves into more than the supply |
| Utxo.TreasuryOverflow | processors/ada_pots_calculator.go:79-86 | fees that turn the treasury negative |
| Utxo.AdaPotsCalculator.CalculateAdaPotsForEpoch | processors/ada_pots_calculator.go:24-117 | the row stored for the slot, from the sums of FeesTotal and UnspentTotal, or nothing if a sum does not fit int64 |
| Fees.FeesTotal | processors/ada_pots_calculator.go:42-49 | over tables that hold a chain the fees query is the fold in chain order of the fees of the blocks of that epoch |
| Fees.FeesAfterIngestion | processors/ada_pots_calculator.go:42-49 | the same after any drained run that lost nothing |
| Fees.TreasuryIsFifth | processors/ada_pots_calculator.go:79-86 | from epoch 208 on the treasury is a fifth of the fees, rounded down, while 20 times the fees fit int64; before, it is 0 |
| Fees.StoredTreasury | processors/ada_pots_calculator.go:79-101 | and the stored row says so for its own epoch |
| Maps.TotalTakeOut | processors/ada_pots_calculator.go:30-36 | a sum over rows does not depend on the order they are visited |
| Maps.SumColumn | processors/ada_pots_calculator.go:30-36 | a row-by-row sum in any order is the total |
| Rewards.CalculatePoolRewards | statequery/rewards.go:264-355 | the loops pay out by stake, margin and amount as in PoolSplit |
| Rewards.PoolSplit | statequery/rewards.go:264-355 | the share is the pool's stake of the rewards less under one lovelace, 0 without blocks; the leader gets the cost plus the margin of what the share leaves beyond it, less under one lovelace, or exactly the cost; each member gets the part of the rest by amount, less under one lovelace, and no row below one |
| Rewards.PoolPayout | statequery/rewards.go:264-355 | a pool is paid at most the larger of its cost and share, at most its share if and only if that covers the cost, and members leave less than one lovelace each undistributed |
| Rewards.IdlePoolIsPaid | statequery/rewards.go:287-300 | a staked pool without blocks is paid exactly its fixed cost, whatever the pot |
| Rewards.MembersNearExact | statequery/rewards.go:341-350 | members together get their exact share less under one lovelace each |
| Rewards.PayoutsWithinPot | statequery/rewards.go:77-197 | all pools together are paid at most the pool rewards plus the cost overruns |
| Rewards.RewardConservation | statequery/rewards.go:77-219 | treasury and all newly stored rewards are at most the pot plus the cost overruns |
| Rewards.PotExact | statequery/rewards.go:205-219 | the reserves are the supply less 0.2 percent an epoch, from epoch 350 on 30 percent; the pot is the expansion rate's part of them and the treasury the tax's part of that, each less under one lovelace |
| Rewards.SharedRewardAddress | statequery/rewards.go:113-170 | a pool's leader row is stored, with its amount and the members' rows, if and only if it is the first to pay a known address without a row; a pool that pays later stores nothing, its members included |
| Rewards.LeaderStored | models/staking.go:195-206 | an address has a leader row in the end if and only if it had one or some pool paid it; no earlier row is lost |
| Rewards.SharedMember | statequery/rewards.go:142-169 | a member's row is stored, with its amount, if and only if its pool's members are not skipped, it was not there, and no earlier pool stored one for the address |
| Rewards.TreasuryStoredOnce | models/staking.go:263-270 | an epoch's treasury cut is stored if and only if it is the first positive one and there was no treasury row |
| Rewards.StoredRewardsStay | statequery/rewards.go:113-170 | what the table holds after any of the pools it still holds in the end |
| Rewards.AddedRows | statequery/rewards.go:127-162 | every row added was earned two epochs before, can be spent from the next one on, and has a known address and a positive amount |
| Rewards.RewardCalculator.CalculateEpochRewards | statequery/rewards.go:77-197 | the reward rows, treasury rows and stake addresses after the call, or no change |
| Rewards.RewardCalculator.StorePoolRewards | statequery/rewards.go:113-170 | which rows a pool adds: unknown or already rewarded leaders skip the pool |
| Rewards.RewardCalculator.StoreMemberRewards | statequery/rewards.go:142-169 | members visited in any order add exactly their rows |
| Recency.HoldsMostRecent | processors/generic_lru_cache.go:31-66 | after any run the cache holds the `capacity` most recently touched distinct keys, in recency order |
| Recency.RecentByLastUse | processors/generic_lru_cache.go:31-66 | that list is the touched keys, ordered by their last touch |
| Recency.ByLastUseUnique | processors/generic_lru_cache.go:31-66 | there is only one such list |
| Recency.HoldsLastPut | processors/generic_lru_cache.go:43-66 | each cached value is that of the key's last Put |
| Recency.SizeBound | processors/generic_lru_cache.go:43-66 | the size never exceeds the capacity, zero and negative ones included |
| Recency.Inclusion | processors/stake_address_cache.go:46-119 | under get-or-create the keys at a capacity are a prefix of those at a larger one |
| Recency.HitsMonotone | processors/stake_address_cache.go:51-55 | hits never decrease with the capacity |
| Lru.LruCache.Get | processors/generic_lru_cache.go:31-40 | on list and map: the value found, and the recency list with the entry in front |
| Lru.LruCache.Put | processors/byte_lru_cache.go:45-71 | on list and map: the recency list after an update or an insertion with eviction |
| Lru.LruCache.Size | processors/generic_lru_cache.go:69-73 | length of the list, of the map and of the contents agree and are within the capacity |
| Lru.LruCache.Clear | processors/generic_lru_cache.go:76-81 | the cache is empty and valid |
| Lru.ElementList.Unlink | processors/generic_lru_cache.go:59-64 | the ring without the element, everything else in order |
| Lru.ElementList.MoveToFront | processors/generic_lru_cache.go:31-40 | the ring with the element first, the others in order |
| StakeCache.CacheAgrees | processors/stake_address_cache.go:46-119 | over any run of committed calls, at any capacity, results and table equal those without a cache, and cached keys stay the hex of values that have rows |
| StakeCache.AgreementAfterAbort | processors/stake_address_cache.go:46-119 | after an abort every further call leaves the uncached table if and only if each cached value has a row |
| StakeCache.AbortedInsertIsLost | processors/stake_address_cache.go:115-118 | an address created in an aborted transaction is returned afterwards without a row |
| StakeCache.UncachedMeaning | processors/stake_address_cache.go:46-119 | without a cache each 28-byte hash is answered with itself and has a row named by its hex afterwards, any other is refused, and nothing else changes |
| StakeCache.CachesMostRecent | processors/stake_address_cache.go:46-119 | after any run the cached keys are those of the most recently requested addresses, the latest first, as many as the capacity allows |
| StakeCache.StakeAddressCache.GetOrCreateStakeAddressFromBytesWithTx | processors/stake_address_cache.go:46-119 | the code is that step when nothing fails; a failing call leaves the cache alone and keeps only a row inserted before a failing re-read |
| StakeCache.StakeAddressCache.FetchAfterConflict | processors/stake_address_cache.go:81-109 | fails exactly if a re-read ends with an error other than not found |
| StakeCache.FetchFailsExact | processors/stake_address_cache.go:81-109 | there are at most three re-reads, and the call fails if and only if one of them fails after only misses; three misses are a success |
| StakeCache.StakeAddressCache.PreloadCache | processors/stake_address_cache.go:128-161 | the cache stays sound and holds min(capacity, rows) entries, all rows if and only if they fit |
| ErrorStore.SelectOldest | errors/unified_error_system.go:383-420 | selection with swap-removal deletes exactly min(n, max(1, n/10)) entries, none seen later than a kept one |
| ErrorStore.EvictsTenth | errors/unified_error_system.go:383-388 | a tenth of the entries, rounded down, but at least one |
| ErrorStore.RemoveOldest | errors/unified_error_system.go:402-419 | one round removes an oldest entry and leaves the others listed once each |
| ErrorStore.SwapRemoveLists | errors/unified_error_system.go:416-418 | overwriting an entry with the last one and cutting removes exactly that entry |
| ErrorStore.SignatureInjective | errors/unified_error_system.go:166-167 | errors whose parts are free of colons are never merged |
| ErrorStore.SignaturesCollide | errors/unified_error_system.go:166-167 | moving a colon from one part to the next keeps the signature |
| ErrorStore.SignatureDetermines | errors/unified_error_system.go:166-167 | no other error has the same signature if and only if no part contains a colon |
| ErrorStore.UnifiedErrorSystem.CleanupOldErrors | errors/unified_error_system.go:383-420 | the map without the oldest tenth, and the accounting of occurrences |
| ErrorStore.UnifiedErrorSystem.LogError | errors/unified_error_system.go:135-244 | filtered, repeated and new errors: map, the counted entry, evictions and their counts, every other entry unchanged, within the limits; after a new error the list is a suffix of the old one with it appended; accepted calls equal live plus evicted counts, and the list holds the latest created errors in order |
| ErrorStore.KeepsNewest | errors/unified_error_system.go:213-217 | such a suffix ends with the new error unless the limit is 0, and drops only the oldest of a full list |
| ErrorStore.HoldsNewest | errors/unified_error_system.go:213-217 | the list is the last min(created, limit) errors created since the last clear |
| ErrorStore.UnifiedErrorSystem.BackgroundMaintenance | errors/unified_error_system.go:453-477 | the early eviction at nine tenths of the limit |
| ErrorStore.UnifiedErrorSystem.GetRecentErrors | errors/unified_error_system.go:306-326 | exactly the list positions seen after the cutoff, from the last to the first; its duplicate-key filter drops nothing |
| ErrorStore.UnifiedErrorSystem.ClearErrors | errors/unified_error_system.go:550-565 | the store is empty and valid |
| Hub.Run | web/websocket.go:49-83 | over any run no closed channel is sent on or closed again; what was taken out and each client's registration and removal are those read off the events, and each client got exactly the updates in between |
| Hub.StatusExplained | web/websocket.go:49-83 | a client's positions are the numbers of updates taken out at the event that registered it and at the one that removed it |
| Hub.StreamFifo | web/websocket.go:49-105 | what was taken out and what still waits are, in order, the updates accepted because the channel had room |
| Hub.WebSocketHub.Handle | web/websocket.go:49-83 | one event moves the stream and every client's membership as the reference says |
| Hub.WebSocketHub.ReadFrom | web/websocket.go:181-199 | a client reads the oldest message its channel buffers, so what it received is always a prefix of what it was sent |
| Hub.WebSocketHub.Deliver | web/websocket.go:69-80 | a broadcast reaches exactly the clients with room; the others are closed and dropped |
| Hub.WebSocketHub.SendToAll | web/websocket.go:71-79 | the same for the loop in any order, with what each channel holds |
| Hub.WebSocketHub.Register | web/websocket.go:52-56 | a new client joins at the current update |
| Hub.WebSocketHub.Unregister | web/websocket.go:58-67 | a client is closed if it is still there, else left alone |
| Hub.WebSocketHub.BroadcastUpdate | web/websocket.go:86-105 | an update is accepted exactly if the channel has room |
| Fetcher.ExactlyOnePlace | metadata/fetcher.go:204-275 | every accepted request is in exactly one of queued, waiting, in progress, stored and failed |
| Fetcher.RecordedNeverUnfetched | metadata/fetcher.go:703-716 | the scanner's query returns exactly the references neither stored nor recorded as failed |
| Fetcher.AnswerExact | metadata/fetcher.go:703-716 | the answer lists exactly the unfetched references, each at its position and in order |
| Fetcher.QueuedOfAnswer | metadata/fetcher.go:703-753 | of an answer its first 100 are queued, or as many as there is room for, with no retry used |
| Fetcher.Run | metadata/fetcher.go:204-275 | over any run the places of all requests are those of the reference machine step by step, rows are never taken back, and a reference recorded as failed is never unfetched again |
| Fetcher.MetadataFetcher.Handle | metadata/fetcher.go:204-275 | each step moves all places as the reference machine does; an impossible one changes nothing |
| Fetcher.MetadataFetcher.QueueMetadata | metadata/fetcher.go:150-201 | accepted exactly if the queue has room, with no retry used |
| Fetcher.MetadataFetcher.Take | metadata/fetcher.go:209-227 | the first request is fetched, or waits unchanged if its URL is busy; no other request moves |
| Fetcher.MetadataFetcher.Finish | metadata/fetcher.go:229-270 | stored, waiting with one more retry, or failed after MaxRetries + 1 fetches and then recorded |
| Fetcher.MetadataFetcher.Wake | metadata/fetcher.go:258-262 | a waiting request returns to the queue's end |
| Fetcher.MetadataFetcher.ScanUnfetchedMetadata | metadata/fetcher.go:694-753 | the first hundred references of the pool query, then of the governance query, are queued in order as far as there is room, none of them stored or recorded as failed; a failing query ends the scan |
| Bytes.HexRoundTrip | processors/asset_processor.go:410-421 | decoding hexadecimal gives back the bytes (base16, section 8 of RFC 4648) |
| Mint.KeyRoundTrip | processors/asset_processor.go:402-421 | the printed key parses back to its policy and name, the empty ones included |
| Mint.KeyInjective | processors/block_processor.go:1163-1167 | no two assets share a key |
| Mint.GetTransactionMint | processors/block_processor.go:1137-1180 | from Mary on the map holds exactly the minted assets under their keys |
| Mint.AssetProcessor.ProcessMint | processors/asset_processor.go:394-431 | exactly one row for each minted asset, whatever the iteration order, and its multi-asset |
| Mint.AssetProcessor.ProcessMintOperation | processors/asset_processor.go:146-176 | the row unless there is one, and the multi-asset |
| Mint.AssetProcessor.GetOrCreateMultiAsset | processors/asset_processor.go:48-99 | the multi-asset has a row; cached ones always do |
| Mint.CacheKeyInjective | processors/asset_processor.go:49-49 | no two assets share a cache key |
| Retry.RetryTransaction | database/retry.go:71-100 | at most MaxRetries + 1 attempts; the database is changed by exactly one run if nil is returned, else unchanged; the waits between |
| Retry.RetryOperation | database/retry.go:103-132 | the same loop without a transaction: every attempt leaves its effect |
| Retry.DelayExact | database/retry.go:73-96 | the k-th wait is min(initial * 2^k, max) if and only if it is not the first or the initial delay is within the maximum |
| Retry.DefaultWaits | database/retry.go:20-26 | by default at most four attempts, after 100, 200 and 400 ms |
| Retry.WorkerNeverRetries | main.go:1442-1467 | no error out of RetryTransaction matches blockWorker's connection test |
| Retry.WrappedNeverRetried | processors/block_processor.go:142-155 | neither does it after being wrapped in a context that does not match itself |
| Retry.ShiftDelayExact | database/connection_recovery.go:135-158 | the shift is 2^k s if and only if k is at most 33; the capped delay is min(1 s * 2^k, max) for those k, and beyond only if the overflowed value reaches the maximum |
| Retry.ConnectionRecovery.ReconnectWithBackoff | database/connection_recovery.go:135-158 | at most ten attempts, stopping at the first success, with the waits and the flags afterwards |

## Left out

- Network, HTTP, SQL text, configuration, dashboards, logging, migrations and authentication.
- CBOR decoding and ledger types: blocks arrive as values with hash, slot, type, inputs and outputs.
- SHA-256 and Blake2b: hashes are opaque.
- Floating-point rounding: rewards use exact rationals with the program's truncations.
- Governance vote indexes and the first-seen transaction of scripts and datums, which depend on processing order.
- Collateral and reference inputs, whose index is never set; scripts, datums, certificates and withdrawals.
- The certificate epoch slot/432000, which ignores the Byron offset.
- Epoch, ADA pots and reward rows in confluence: they are computed from whatever is stored at that moment.
- A rollback while workers are busy, and shutdown by closing the queue.
- The row-size batches of FastCreateInBatches: a failing batch aborts its database transaction, so the split does not show.
- The int64 conversions of amounts and of OutSum, and wrap-around of the processed-transaction counter.
- Mutual exclusion of fetches by URL: whether a URL is busy is a free answer to each worker.
- Pong replies, which readPump sends on the client's channel outside the hub.
- The locks of the caches: one call at a time. The byte cache mutates its list under a read lock.
- DatumCache, ScriptCache, era lookup tables and the other ring buffers, which repeat patterns proved here.
- IngestInvariant.StepInv: a rollback to an unknown point at slot 0 over stored blocks is not a step, since it breaks the invariant.
- Retry.RetryTransaction: an error means that the transaction was rolled back; a lost acknowledgement is an outcome of the ingestion machine only.
- Restarts.StartOverExact: the blocks delivered again over leftover tables are stored by one writer in order; the machine restarts only from a stored block.
- Utxo.AntiJoinIsLedger: is about the join on the output index, since the column the query names does not exist.
- Indexer.Indexer.BlockWorker: connection recovery is one answer of the environment, and the sleeps between attempts are not kept.
- Utxo.AdaPotsCalculator.CalculateAdaPotsForEpoch: deposits and withdrawn rewards are parameters, their tables are not modelled.
- Rewards.RewardCalculator.CalculateEpochRewards: the answers of its queries are parameters, and a failing insert of a member row is only the duplicate one.
