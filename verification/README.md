# A verified model of celo-blockchain's pool, chain and fee logic

This project models the parts of celo-blockchain whose correctness rests on invariants that no single function states,
and proves them with Dafny. `dafny verify dfyconfig.toml` checks everything.

* **Transaction pool** (`core/tx_pool.go`, `core/tx_list.go`, `core/tx_noncer.go`). `TxSortedMap.dfy`, `TxList.dfy` and
  `TxListObject.dfy` model the per-account lists over the binary heap of `BinaryHeap.dfy` and the nonce-keyed maps of
  `NonceMap.dfy`; `TxLookup.dfy` and
  `TxNoncer.dfy` the hash lookup and the nonces. `PoolInvariant.dfy` states when pending lists, queued lists and lookup
  agree and how transactions may move between them, `PoolView.dfy` what adding and removing make of the whole pool,
  `PoolTruncation.dfy` what fair truncation means, `PoolStages.dfy` what each stage of a maintenance run does,
  `TxPool.dfy` is the pool itself, `PoolReset.dfy` finds what a new head
  lost, `PoolEvents.dfy` is what a run announces, and `PoolRuns.dfy` puts the operations together into runs.
  `PoolRules.dfy` says of single nonces and hashes what all of this does, and `PoolFees.dfy` holds what the pool takes to be
  payable against what the state transition asks for.
* **Price heaps** (`core/tx_multicurrency_priceheap.go`, `core/tx_list.go`). `Currency.dfy` compares amounts across
  currencies, `PriceHeap.dfy` is the heap over all currencies, `PricedList.dfy` the two heaps with stale entries, and
  `PricedPool.dfy` the pool and its heaps together.
* **Canonical chain** (`core/headerchain.go`, `core/blockchain.go`). `Ancestry.dfy` has the plain parent walk and what it
  means for a number index to equal it; `HeaderChain.dfy` and `BlockChain.dfy` maintain that index through imports,
  reorganisations and rewinds.
* **Section indexer** (`core/chain_indexer.go`): `ChainIndexer.dfy`, as atomic steps between which the chain may change.
* **Reorg scheduler** (`core/tx_pool.go`): `ReorgScheduler.dfy`, the batching loop with a ghost record of all batches.
* **Event feed** (`event/feed.go`): `Feed.dfy`, with the slice of cases as one array that two views share.
* **Fees and gas** (`core/state_transition.go`, `core/state_processor.go`, `core/gaspool.go`): `StateTransition.dfy` over
  the balances of `Ledger.dfy`.
* **Derivation paths** (`accounts/hd.go`): `DerivationPath.dfy`.

`Types.dfy` and `Options.dfy` hold what several parts share.

## Where the code falls short of its intent

The model follows the code. In these places the intended property fails on some inputs; the condition under which it holds
is proved, and an input that breaks it is given.

* Importing a run of headers that are all stored already, as high as the head and winning the coin toss, moves the head
  without marking the run (`HeaderChains.HeaderChain.WriteHeaders`, `HeaderChains.ReimportOfSibling`).
* Making a lower known block the head leaves index entries above it when its parent was canonical
  (`BlockChains.BlockChain.WriteKnownBlock`, `BlockChains.KnownParentOfHead`). It is a fault of `writeKnownBlock` itself:
  fork choice in `InsertBlock` never does this, and an import skips known blocks no higher than the head before it calls it
  (`BlockChains.BlockChain.ImportKnown`). Only the call for a known block in the middle of a batch
  (`core/blockchain.go:1901`) makes no such test.
* The list filter's early exit keeps a transaction whose fee equals its limit, whose price is below the floor or whose
  rate has changed too much, which the full scan would remove (`TxLists.FilterIsExactIff`,
  `TxLists.FilterOverlooksExactFee`). A fee currency of unknown balance, which the scan would compare with nothing, does
  not occur as long as balance queries are answered: the pool asks for every currency in the caps
  (`PoolStages.BalanceKnown`).
* A denominated transaction without a rate is stored although it is reported as refused, and without raising the caps
  (`TxLists.RejectedStaysOut`, `TxLists.AddKeepsOk`). So one whose currency loses its rate while it is queued is lost when
  it is promoted (`PoolInvariant.PromoteIff`, `PoolInvariant.LostRate`).
* A remote that leaves the pool and comes back before the price heaps are rebuilt is tracked twice, and counts twice when
  room is made (`PricedLists.TrackedTwice`). When everything is given up, the slots freed are those counted if and only if
  every remote had one entry (`PricedLists.ForcedFrees`), and with single entries room is always enough
  (`PricedPools.AddPriced`). Entries stay single as long as nothing is handed in twice between rebuilds
  (`PricedPools.Play`).
* A heap whose base fees are set for some currencies only has no consistent order (`PriceHeaps.MixedBaseFeesCycle`). The
  floating heap starts that way, as its native base fee is never set; `Pop` is proved cheapest when all are set or none is.
* A gateway fee without recipient is passed to a fee currency's contract although it was not debited
  (`StateTransitions.CreditsMatchDebit`, `StateTransitions.UnownedGatewayFee`).
* The price of a CELO-denominated message is computed from the base fee in its fee currency, so it reaches the CELO minimum
  exactly when the tip makes up for the difference (`StateTransitions.PriceReachesMinimum`,
  `StateTransitions.PriceBelowMinimum`). Otherwise the tip it is credited is negative
  (`StateTransitions.CreditsNotNegative`, `StateTransitions.NegativeTip`).

## Model

| member | source | states |
|---|---|---|
| `SortedMap.TxSortedMap.Put` | core/tx_list.go:76-82 | adds or replaces at the nonce and drops the cache; the index stays a min-heap permutation of the keys |
| `SortedMap.TxSortedMap.Forward` | core/tx_list.go:87-101 | removes exactly the nonces below the threshold, returned in nonce order, and a present cache stays the sorted listing of what is left |
| `SortedMap.TxSortedMap.Filter` | core/tx_list.go:108-115 | removes exactly the matching transactions, returns each once, and rebuilds the index |
| `SortedMap.TxSortedMap.Reheap` | core/tx_list.go:117-124 | rebuilds a valid index from the map alone |
| `SortedMap.TxSortedMap.FilterItems` | core/tx_list.go:128-142 | removes the matching transactions from the map and clears the cache exactly when something went |
| `SortedMap.TxSortedMap.Cap` | core/tx_list.go:146-167 | keeps exactly the lowest nonces up to the limit and returns the others highest first; a present cache stays right |
| `SortedMap.TxSortedMap.Remove` | core/tx_list.go:171-188 | removes one nonce from map, index and cache; reports whether it was there |
| `SortedMap.TxSortedMap.Ready` | core/tx_list.go:197-212 | returns and removes the maximal consecutive run from the lowest nonce when that is at most the start, otherwise nothing |
| `SortedMap.TxSortedMap.Flatten` | core/tx_list.go:219-240 | the nonce-sorted listing of the whole map, cached |
| `SortedMap.TxSortedMap.LastElement` | core/tx_list.go:244-247 | the transaction with the highest nonce |
| `NonceMap.ListingUnique` | core/tx_list.go:219-240 | a map has one nonce-sorted listing, so a cached one equals a fresh sort |
| `Currency.CmpIsWorthOrder` | contracts/currency/currency.go:193-216 | with known rates the cross-multiplied comparison is the order of exact CELO worth |
| `Currency.FromBaseRoundsDown` | contracts/currency/currency.go:131-133 | the most tokens worth no more than the CELO amount |
| `Currency.ToBaseRoundsDown` | contracts/currency/currency.go:126-128 | the most CELO worth no more than the tokens |
| `Currency.ThereAndBack` | contracts/currency/currency.go:125-133 | changing there and back never gains anything, and denominator CELO are numerator tokens without a rest |
| `Currency.ToCELOIsWorth` | contracts/currency/currency.go:68-71 | the CELO amount is the exact worth rounded down, and fails just without a rate |
| `Types.SlotsMeans` | core/tx_pool.go:2027-2029 | as many slots of 32 KiB as the size needs, and no more |
| `TxLists.ReplacesIff` | core/tx_list.go:327-367 | inside one currency a replacement is strictly dearer in fee cap and in tip cap, and by the price bump in each; so no two transactions replace each other |
| `TxLists.ReplacesByWorth` | core/tx_list.go:334-367 | across currencies it is worth the price bump more in each, up to a CELO of rounding, whatever is worth that much replaces, and without both rates nothing does |
| `TxLists.AddIff` | core/tx_list.go:318-399 | inserted exactly when rated and the nonce is free or outbid; then exactly its nonce changes, what was there is returned, and each cap becomes the larger of itself and what the transaction needs |
| `TxLists.RejectedStaysOut` | core/tx_list.go:318-399 | a transaction that is not inserted leaves the list untouched exactly when the price rule refused it (a missing rate is the other case) |
| `TxLists.AddKeepsOk` | core/tx_list.go:369-399 | after an Add the caps bound every stored transaction, except if and only if an unrated one was stored that lies beyond them |
| `TxLists.FilterKeepsOk` | core/tx_list.go:416-492 | filtering keeps the caps above every stored transaction although it lowers them |
| `TxLists.FilterOnGasLimitKeepsOk` | core/tx_list.go:501-529 | the same for the gas limit filter |
| `TxLists.RemoveKeepsOk` | core/tx_list.go:540-551 | the same for removal |
| `TxLists.BailLeavesAffordable` | core/tx_list.go:416-441 | when the filter bails early, no stored transaction exceeds the native cost, value, gas or given non-denominated fee limits |
| `TxLists.OverlookedIsTooCostly` | core/tx_list.go:439-477 | in a list that bails, the full scan would select exactly the transactions of the overlooked kind |
| `TxLists.FilterIsExactIff` | core/tx_list.go:416-492 | on strict and loose lists, denominated transactions included, the filter removes exactly what its full scan selects if and only if it does not bail or nothing stored is priced below the floor, of unknown balance (which the pool does not leave), costs exactly its fee limit, or is a denominated one whose rate is gone or has moved its fee past its maximum or the limit |
| `TxLists.FilterOverlooksExactFee` | core/tx_list.go:416-492 | a concrete strict list and a loose one on which the early bail keeps a transaction the scan would remove |
| `TxLists.FilterPartitions` | core/tx_list.go:442-492 | kept, removed and invalidated partition the list, kept nonces lie below and invalidated ones above the lowest removed, and consecutive nonces stay consecutive |
| `TxLists.FilterOnGasLimitPartitions` | core/tx_list.go:501-529 | the same for the gas limit filter |
| `TxLists.RemovePartitions` | core/tx_list.go:540-551 | the same for removing one nonce |
| `TxLists.ForwardAndCapKeepContiguous` | core/tx_list.go:404-406 | dropping low or high nonces keeps the rest consecutive |
| `ListObject.TxList.Add` | core/tx_list.go:318-399 | the list object's insertion computes the value model's outcome, unrated transactions included (`TxLists.AddIff` says when and what), and stays well kept exactly unless an unrated one beyond the caps was stored |
| `ListObject.TxList.Forward` | core/tx_list.go:404-406 | drops the nonces below the threshold and returns them in order |
| `ListObject.TxList.Filter` | core/tx_list.go:416-492 | computes the value model's filter: kept list, removed and invalidated transactions (`PoolFees.ScanRemovesIff` ties what is removed to the fee check) |
| `ListObject.TxList.FilterOnGasLimit` | core/tx_list.go:501-529 | computes the value model's gas limit filter |
| `ListObject.TxList.Cap` | core/tx_list.go:533-535 | keeps the lowest nonces and returns the rest highest first |
| `ListObject.TxList.Remove` | core/tx_list.go:540-551 | computes the value model's removal, including the transactions a strict list invalidates |
| `ListObject.TxList.Ready` | core/tx_list.go:560-562 | takes the maximal run that is ready |
| `Lookup.TxLookup.Get` | core/tx_pool.go:1902-1910 | finds a transaction among locals and remotes |
| `Lookup.TxLookup.Add` | core/tx_pool.go:1961-1973 | adds to locals or remotes; the slot counter stays the sum of all slots exactly when the hash was new, or on the same side with no slots |
| `Lookup.TxLookup.Remove` | core/tx_pool.go:1976-1994 | removes from whichever side has it; the slot counter stays exact |
| `Lookup.TxLookup.RemoteToLocals` | core/tx_pool.go:1998-2011 | moves exactly the remotes of the given accounts to the locals and counts them, with nothing lost |
| `Noncer.TxNoncer.Get` | core/tx_noncer.go:45-55 | reads through to the state and leaves every nonce as it was |
| `Noncer.TxNoncer.SetIfLower` | core/tx_noncer.go:68-79 | lowers one account's nonce and never raises it |
| `PoolInvariant.KnownIsAtItsNonce` | core/tx_pool.go:1119-1165 | a known transaction is in exactly one of the two lists of its sender, at its own nonce, so removal by nonce removes the intended one |
| `PoolInvariant.EnqueueStep` | core/tx_pool.go:882-921 | moving a transaction into the queue, replacing what it displaces in the lookup, keeps the pool consistent |
| `PoolInvariant.PromoteStep` | core/tx_pool.go:939-969 | moving a transaction into pending, replacing what it displaces, keeps the pool consistent |
| `PoolInvariant.RefuseStep` | core/tx_pool.go:946-953 | dropping a transaction whose promotion is refused keeps the pool consistent |
| `PoolInvariant.PromoteIff` | core/tx_pool.go:939-969 | promotion out of transit keeps lists and lookup in step if and only if the rate of the transaction is known or its price is refused |
| `PoolInvariant.LostRate` | core/tx_pool.go:939-969 | a concrete promotion that loses a transaction whose currency lost its rate: it is listed and then forgotten |
| `PoolInvariant.CutPendingStep` | core/tx_pool.go:1678-1736 | any cut of a pending list that forgets the removed and carries the invalidated keeps the pool consistent |
| `PoolInvariant.CutQueueStep` | core/tx_pool.go:1453-1537 | any cut of a queued list keeps the pool consistent |
| `PoolTruncation.RoundKeepsLevel` | core/tx_pool.go:1572-1595 | one round cuts every offender by one and keeps them level |
| `PoolTruncation.CuttingIsFair` | core/tx_pool.go:1542-1624 | the state the loop ends in is fair: only non-local accounts lost anything, all cut accounts end equal, no uncut one is longer, nobody falls below the guarantee, and no more rounds ran than needed |
| `PoolTruncation.QueueStep` | core/tx_pool.go:1645-1668 | dropping an account's queue, or part of it, from the most recent heartbeat down keeps the truncation exact |
| `PoolViews.Sanitize` | core/tx_pool.go:220-251 | every unworkable setting becomes its default, or a second for the journal, and every workable one is kept |
| `Pool.TxPool.EnqueueTx` | core/tx_pool.go:882-921 | queues by the price rule, replaces in queue and lookup together, keeps the pool consistent |
| `Pool.TxPool.PromoteTx` | core/tx_pool.go:939-969 | promotes by the price rule; a refused transaction is forgotten; the pool stays consistent |
| `Pool.TxPool.RemoveTx` | core/tx_pool.go:1119-1165 | exactly the given transaction leaves lookup and lists; pending ones above it move to the queue; nothing else changes, and only its account's next nonce can fall, to its nonce |
| `Pool.TxPool.RemovePending` | core/tx_pool.go:1135-1153 | the pending list keeps what is below, the queue gains what is above, and the next nonce is lowered |
| `Pool.TxPool.Add` | core/tx_pool.go:778-877 | the whole outcome: lists, lookup, exempt accounts, drop counter, next nonces and each error, also when the pool was full; the price rule is decided on the lists that are left once room is made; the newcomer takes the place of whatever is still known with its sender and nonce, is reported as a replacement just then, and nothing but that and the dropped leaves |
| `Pool.TxPool.MakeRoom` | core/tx_pool.go:796-832 | a full pool refuses exactly as the source does or removes what the price heaps say, one after the other, for any answer they give; otherwise nothing changes |
| `Pool.TxPool.ReplacePending` | core/tx_pool.go:833-858 | an equal nonce in pending is replaced just when the price rule allows, in list and lookup |
| `Pool.TxPool.Place` | core/tx_pool.go:833-876 | a pending transaction of the same nonce is replaced, otherwise the queue takes it, both just when the price rule allows; a first local one exempts its account with all it has |
| `Pool.SlotHolder` | core/tx_pool.go:833-839 | what is known with a sender and nonce is exactly what one of the sender's two lists holds there |
| `Pool.TxPool.AddAll` | core/tx_pool.go:1069-1081 | submissions are added in turn, each with its whole effect, error and replacement flag on the pool the one before left; the reported accounts are exactly those of the ones added without replacing |
| `PoolRules.RefusedIff` | core/tx_pool.go:778-822 | each refusal exactly when its cause applies and none before it does: known, invalid, the cheapest of a full pool, more than a quarter of the slots changed hands or no room to be made; exempt accounts are spared the third and the last; the pool is unchanged |
| `PoolRules.OutbidIff` | core/tx_pool.go:833-876 | past those, a submission is refused exactly when what has its nonce, pending or else queued, is not outbid; otherwise it is at its nonce and no other nonce of any account changes, it is local exactly when handed in so or sent by an exempt account, the replaced one leaves the lookup, a first local one takes the remotes of its account along, and the heartbeat starts or is refreshed |
| `PoolRules.RemovedMeans` | core/tx_pool.go:1119-1165 | nothing but the transaction leaves: of a pending one, exactly what lies above it goes to the queue; a heartbeat starts with that and goes with the last queued one |
| `PoolRules.RemovedNextMeans` | core/tx_pool.go:1147-1148 | the next nonce is the lower of itself and the nonce of a pending transaction that was removed |
| `PoolRules.DroppedOneMore` | core/tx_pool.go:826-831 | room is made one removal after the other, each as above on what the one before left |
| `PoolRules.DroppedMeans` | core/tx_pool.go:824-831 | making room takes exactly the advised out of the lookup, and changes neither exempt accounts nor the counter by itself |
| `PoolRules.RoomMadeMeans` | core/tx_pool.go:796-831 | only a pool whose slots would not fit makes room, and counts what it drops |
| `Pool.TxPool.PromoteAccount` | core/tx_pool.go:1462-1535 | drops stale and unpayable, promotes the ready run, caps the rest of one account and moves its next nonce past the run |
| `Pool.TxPool.PromoteExecutables` | core/tx_pool.go:1453-1537 | the same for every account asked for, each from its state before; no other account changes, and exactly the promoted are reported |
| `Pool.TxPool.DemoteAccount` | core/tx_pool.go:1678-1736 | drops stale and unpayable pending ones, postpones invalidated and gapped ones |
| `Pool.TxPool.DemoteUnexecutables` | core/tx_pool.go:1678-1736 | the same for every pending account |
| `PoolRules.PromotionMeans` | core/tx_pool.go:1462-1535 | nonce by nonce: what becomes pending or stays queued is not stale, has no deprecated gateway fee and can be paid; what becomes pending is the gapless run from the lowest, if that is at most the next nonce; what is dropped was stale, deprecated, too costly, or above as many others as the account may queue |
| `PoolRules.DemotionMeans` | core/tx_pool.go:1678-1736 | nonce by nonce: what stays starts at the account's nonce and can be paid; what is dropped was stale or too costly; what goes back lies above something too costly, or everything does for want of the first nonce |
| `PoolRules.PromotionBeats` | core/tx_pool.go:966-967 | after a promotion exactly the accounts with something queued have a heartbeat, refreshed if something was promoted |
| `PoolRules.DemotionBeats` | core/tx_pool.go:913-919 | demotion gives a heartbeat to an account that gets something queued and has none, and changes none |
| `PoolRules.NextMeans` | core/tx_pool.go:963-964 | the following nonce, in 64 bits |
| `Pool.TxPool.CutOne` | core/tx_pool.go:1574-1594 | removes an account's highest pending transaction; its next nonce becomes the lower of that nonce and the old one |
| `Pool.TxPool.CutRound` | core/tx_pool.go:1572-1595 | one round over the offenders, with the exact new total |
| `Pool.TxPool.TruncatePending` | core/tx_pool.go:1542-1624 | the pending part is fairly truncated and the pool stays consistent |
| `Pool.TxPool.TruncateQueue` | core/tx_pool.go:1627-1669 | the queue ends exactly at its limit or with no remote left, most recently active accounts losing first |
| `Pool.TxPool.Reset` | core/tx_pool.go:1348-1448 | state becomes that of the new head and abandoned transactions are added in turn to the pool as it was; next nonces are those of the new state, less what drops took |
| `PoolResets.LostIsAboveFork` | core/tx_pool.go:1382-1408 | what the old chain has above the fork and the new one has not is what the old chain has at all and the new one has not |
| `PoolResets.Reinjected` | core/tx_pool.go:1348-1411 | a reorganisation of at most 64 heights takes back exactly the transactions of the old chain that the new one lacks; a deeper or straight one takes back none; a missing old head gives the reset up unless the head moved down |
| `Pool.TxPool.RunReorg` | core/tx_pool.go:1270-1344 | the run is exactly reset of the pool it found, promotion of the accounts asked for (all after a reset, also one that is given up), demotion after a reset, and fair truncation of both parts, with lists in order, next nonces and heartbeats tied from one to the next; it reports exactly the promoted, all of which can be paid; after a reset everything pending can be paid and starts at the account's nonce; limits hold as far as exempt accounts allow, next nonces follow the pending ones, and nothing comes in but the transactions taken back |
| `PoolStages.FilteredIsAffordable` | core/tx_list.go:416-492 | scanned or not, what the filter keeps has gas, CELO and tokens within the account's means, which is what the fee check asks for (`PoolFees.AffordableIff`) |
| `PoolStages.BalanceKnown` | core/tx_pool.go:1475-1481 | the balance is asked for every currency in the caps, so no transaction of the list is without one |
| `PoolFees.AffordableIff` | core/state_transition.go:300-364 | the pool and the fee check agree: a transaction priced in its own currency is affordable if and only if its message passes the fee check within the gas limit, with the value there |
| `PoolFees.ScanRemovesIff` | core/tx_list.go:442-477 | the full scan removes exactly what is above the gas limit or below the floor, what the fee check refuses, and of those paying in tokens also what leaves none over or has not the value |
| `PoolFees.BelowFloorMeans` | core/tx_list.go:443-477 | below the floor is worth less than the floor in CELO |
| `PoolFees.PriceIsBaseAndTip` | core/types/transaction.go:372-396 | the effective price of the message is the base fee and the effective tip the price heaps go by |
| `PoolFees.FirstPendingApplies` | core/state_transition.go:451-566 | after a reset the first pending transaction of every account can be applied to the state of the new head, as far as that is up to the account |
| `PoolStages.DemotedIsExecutable` | core/tx_pool.go:1678-1736 | after demotion every pending list starts at its account's nonce and all of it can be paid |
| `PoolStages.TruncatedIsExecutable` | core/tx_pool.go:1542-1624 | fair truncation leaves that so |
| `PoolStages.ReadyIsAffordable` | core/tx_pool.go:1462-1512 | what becomes ready can be paid and is not below the account's nonce |
| `PoolStages.RunIsExecutable` | core/tx_pool.go:1270-1344 | a whole run promotes only what can be paid, and after a reset leaves pending only what can be executed |
| `Pool.TxPool.EvictStale` | core/tx_pool.go:424-441 | exactly the queues of remote accounts idle longer than the lifetime are emptied; every one of them has a heartbeat |
| `PoolRuns.Perform` | core/tx_pool.go:778-1736 | every operation keeps the pool consistent, with heads that have rates for the currencies handed in so far |
| `PoolRuns.Play` | core/tx_pool.go:318-375 | from the empty pool, every run of submissions, maintenance runs, evictions and removals leaves a consistent pool in which every account with something queued has a heartbeat, as long as each new head has rates for the currencies in use |
| `Ancestry.AncestorOfAncestor` | core/headerchain.go:436-468 | parent walks compose |
| `HeaderChains.HeaderChain.WriteHeaders` | core/headerchain.go:151-311 | stores exactly the new headers if their parent is known at the height before, and nothing else; the head becomes the last one if that is higher or as high and wins the toss, and stays otherwise; headers stay parent-closed with none above the head, and the index equals the parent walk if and only if the parent is unknown, a header was new, the last one is the head already, or it is lower than the head or loses the toss |
| `HeaderChains.CollectNew` | core/headerchain.go:170-202 | the headers to store are those from the first unknown one on |
| `HeaderChains.Rejoin` | core/headerchain.go:251-270 | overwriting downwards until the index is met makes it agree with the parent walk |
| `HeaderChains.NewIndex` | core/headerchain.go:235-290 | the index after a reorganisation is the parent walk of the new head if and only if a header was new or the head did not move |
| `HeaderChains.RunIsCanonical` | core/headerchain.go:235-290 | marking the whole run over a rejoined index makes its last header canonical |
| `HeaderChains.UnmarkedRun` | core/headerchain.go:271-286 | a run without new headers is not marked, so its entry stays with the old head |
| `HeaderChains.ReimportOfSibling` | core/headerchain.go:151-311 | a concrete run that ends with a wrong index: a losing sibling imported again that wins the toss |
| `HeaderChains.HeaderChain.SetHead` | core/headerchain.go:575-657 | rewinds to the ancestor at that height, keeps exactly the headers up to it on all forks, and keeps the index the parent walk |
| `HeaderChains.HeaderChain.GetAncestor` | core/headerchain.go:436-468 | the plain ancestor with its number, the allowance falling by exactly the steps taken; fails exactly when the depth exceeds the number, the block is unknown or the allowance runs out first |
| `HeaderChains.StepsToIndex` | core/headerchain.go:447-466 | the single steps stop at the first ancestor on the index |
| `BlockChains.BlockChain.WriteHeadBlock` | core/blockchain.go:813-840 | index, lookups and head for one block; the other heads follow unless it was canonical already |
| `BlockChains.FindFork` | core/blockchain.go:2249-2293 | the highest common ancestor and both branches down to it, whenever all blocks are there |
| `BlockChains.BlockChain.Reorg` | core/blockchain.go:2194-2333 | enters the new branch but its head, drops lookups of the old branch only, and leaves no index entry above the last written block |
| `BlockChains.TxDifference` | core/types/transaction.go:542-557 | exactly the hashes of the first list that are not in the second |
| `BlockChains.BlockChain.MakeHead` | core/blockchain.go:1648-1662 | after a head change the lookups are exactly the canonical transactions, and the index is the parent walk if and only if the new head is not lower or its parent was not canonical |
| `BlockChains.BlockChain.InsertBlock` | core/blockchain.go:1545-1662 | unknown ancestors change nothing; otherwise the block is stored, a higher one becomes the head and a lower one does not; at equal heights a preserved head stays, else a preserved block wins, else the coin decides; the index, lookups and heads stay right and the head never falls |
| `BlockChains.BlockChain.WriteKnownBlock` | core/blockchain.go:1448-1457 | keeps everything right if and only if the block is not lower than the head or its parent is not canonical |
| `BlockChains.KnownParentOfHead` | core/blockchain.go:1448-1457 | a concrete call that ends with a wrong index: the head's parent written as a known block |
| `BlockChains.BlockChain.ImportKnown` | core/blockchain.go:1786-1826 | a batch of known blocks skips those no higher than the head and writes the others in turn, so that index, lookups and heads stay right |
| `BlockChains.Run` | core/blockchain.go:1512-1682 | every run of insertions from genesis keeps index, lookups and heads right; each offer of it is decided by those rules, with any tie-breaks; store and head are at each point the result, and heights never fall |
| `BlockChains.EveryOffer` | core/blockchain.go:1630-1646 | the store and head that fork choice makes of a run obey, at every offer, the rules of height, preserved blocks and coin |
| `BlockChains.RelinkedIsCanonical` | core/blockchain.go:2322-2330 | the relinked index is the new head's parent walk exactly when the new head is not lower or two blocks were entered |
| `BlockChains.SwitchedIsExact` | core/blockchain.go:2304-2321 | switching branches leaves exactly the new chain's transactions in the lookup |
| `BlockChains.UniverseOnce` | core/blockchain.go:2304-2321 | along any stored chain no transaction occurs twice |
| `ChainIndexers.ChainIndexer.SetValidSections` | core/chain_indexer.go:485-497 | drops exactly the section heads from the given section on |
| `ChainIndexers.ChainIndexer.NewHead` | core/chain_indexer.go:246-303 | a reorganisation cuts known and stored sections to the fork; a new head only raises the known ones |
| `ChainIndexers.ChainIndexer.VerifyLastHead` | core/chain_indexer.go:428-435 | no section it drops is canonical, and on a parent-linked chain every section it keeps is |
| `ChainIndexers.CanonicalDown` | core/chain_indexer.go:428-435 | one canonical section head makes all earlier stored ones canonical |
| `ChainIndexers.ChainIndexer.Begin` | core/chain_indexer.go:320-341 | takes up the section after the stored ones that are canonical, linked to the last of them |
| `ChainIndexers.ChainIndexer.Process` | core/chain_indexer.go:400-417 | accepts the next header exactly when it is canonical at that moment, stored and the child of the last one |
| `ChainIndexers.ChainIndexer.ResetFailed` | core/chain_indexer.go:394-398 | a failed reset drops every section |
| `ChainIndexers.ChainIndexer.Finish` | core/chain_indexer.go:351-371 | stores the section exactly when processing succeeded and its predecessor is still stored; its head then links to it |
| `ChainIndexers.Run` | core/chain_indexer.go:307-385 | over every interleaving stored heads stay linked, and after the last check every stored head is canonical |
| `PriceHeaps.HeapOrder` | core/tx_list.go:600-624 | the price order with nonces as tie-break is a strict weak order |
| `PriceHeaps.EffectiveTipMeans` | core/types/transaction.go:372-396 | the most that is within the tip cap and, with the base fee, within the fee cap; without a base fee the tip cap |
| `PriceHeaps.HeapLessMeans` | core/tx_list.go:600-624 | lower effective tip first where there is a base fee, then lower fee cap, then lower tip cap, then higher nonce |
| `PriceHeaps.CheaperMeans` | core/tx_multicurrency_priceheap.go:31-44 | across currencies the same order by exact worth in CELO, base fees all set or all unset |
| `PriceHeaps.CmpIsPriceOrder` | core/tx_multicurrency_priceheap.go:31-44 | with known rates and base fees all set or all unset the comparison is the lexicographic order of CELO prices |
| `PriceHeaps.CmpInsideCurrency` | core/tx_multicurrency_priceheap.go:31-44 | inside one currency it agrees with that currency's heap |
| `PriceHeaps.MixedBaseFeesCycle` | core/tx_multicurrency_priceheap.go:31-44 | with a base fee set for one currency and unset for another, whatever the rates, three transactions form a cycle, so no cheapest one exists |
| `PriceHeaps.MultiCurrencyPriceHeap.GetHeapFor` | core/tx_multicurrency_priceheap.go:74-85 | every transaction has a heap, that of its fee currency; a new one is empty and takes the current minimum of that currency as base fee |
| `PriceHeaps.MultiCurrencyPriceHeap.Add` | core/tx_multicurrency_priceheap.go:88-91 | adds one transaction to the heap of its currency |
| `PriceHeaps.MultiCurrencyPriceHeap.Push` | core/tx_multicurrency_priceheap.go:94-97 | adds one transaction and keeps every heap in order |
| `PriceHeaps.MultiCurrencyPriceHeap.CheapestTxs` | core/tx_multicurrency_priceheap.go:99-110 | exactly the roots of the non-empty heaps |
| `PriceHeaps.MultiCurrencyPriceHeap.CheapestTx` | core/tx_multicurrency_priceheap.go:119-128 | a transaction no dearer than any other over all currencies, when prices can be compared |
| `PriceHeaps.MultiCurrencyPriceHeap.Pop` | core/tx_multicurrency_priceheap.go:130-137 | removes exactly one transaction, None exactly when empty; where prices compare, none is dearer in CELO than what stays: lower effective tips go first, then lower fee caps, then lower tip caps, and in one currency then higher nonces |
| `PriceHeaps.MultiCurrencyPriceHeap.Len` | core/tx_multicurrency_priceheap.go:139-145 | the number of transactions over all heaps |
| `PriceHeaps.MultiCurrencyPriceHeap.Init` | core/tx_multicurrency_priceheap.go:147-152 | orders every heap without losing anything |
| `PriceHeaps.MultiCurrencyPriceHeap.Clear` | core/tx_multicurrency_priceheap.go:154-159 | empties every heap and keeps the base fees |
| `PriceHeaps.MultiCurrencyPriceHeap.UpdateFeesAndCurrencies` | core/tx_multicurrency_priceheap.go:161-169 | sets every base fee to the new minimum |
| `PricedLists.TxPricedList.Put` | core/tx_list.go:684-690 | tracks a remote transaction, locals are not tracked; entries stay distinct exactly when it was not tracked already |
| `PricedLists.TxPricedList.Removed` | core/tx_list.go:695-709 | rebuilds exactly when the stale entries exceed a quarter of the heaps or the maximum, from the remotes at that time; otherwise only counts |
| `PricedLists.TxPricedList.Prune` | core/tx_list.go:746-757 | drops only stale entries until the root is live, and counts them |
| `PricedLists.TxPricedList.UnderpricedFor` | core/tx_list.go:723-743 | no live root is cheaper than the transaction, or a cheaper live one is named |
| `PricedLists.TxPricedList.Underpriced` | core/tx_list.go:713-721 | true only if nothing tracked is cheaper and something is tracked; false only if a cheaper live one exists or nothing is tracked |
| `PricedLists.TxPricedList.Discard` | core/tx_list.go:763-799 | terminates; from the heaps as they were, and with every entry in its currency's heap and every heap in order at each step, it takes the first of the urgent heap over to the floating one while that is less than a fourth of it, and else drops the first of the floating one, stale entries just going; the first is least of its currency and cheapest of all where prices compare; drops are the live ones of the second kind, no more than needed, and enough unless forced; on failure every live one is still tracked and all together were too small |
| `PricedLists.KeptAreNoCheaper` | core/tx_list.go:763-799 | where prices compare, no live entry left in the floating heap is cheaper than one dropped since it was there |
| `PricedLists.StaysComparable` | core/tx_list.go:763-799 | prices that compare at the start compare at every step, at the same base fees |
| `PricedLists.DroppedAsTracked` | core/tx_list.go:763-799 | what is dropped twice was tracked twice, and what is dropped stays tracked just when not all its entries went |
| `PricedLists.TrackedTwice` | core/tx_list.go:684-799 | a concrete run: one of four remotes leaves, with the heaps told and not rebuilt, and comes back; it is then tracked twice, and a forced discard gives it up twice and counts five slots where the pool has four |
| `PricedLists.SlotsFreed` | core/tx_pool.go:824-831 | what is dropped never frees more slots than were counted for it, and just as many if and only if nothing that takes slots was dropped twice |
| `PricedLists.ForcedFrees` | core/tx_list.go:763-799 | when everything is given up, slots freed and slots counted agree if and only if every remote that takes slots had one entry |
| `PricedLists.TxPricedList.Reheap` | core/tx_list.go:802-826 | each remote is tracked exactly once, a fifth rounded down is floating, nothing is stale, and no floating transaction is dearer than an urgent one |
| `PricedLists.StepSizes` | core/tx_list.go:763-799 | at each step of a discard, as long as the urgent heap is more than four times the floating one, it alone loses an entry, which the floating one gains if live; after that only the floating one loses |
| `PricedLists.TxPricedList.SetBaseFee` | core/tx_list.go:830-833 | the same after new base fees, given the rates |
| `PricedLists.Evict` | core/tx_pool.go:813-832 | what is given up leaves the lookup, and every remaining remote is still tracked |
| `PricedLists.StillTracks` | core/tx_pool.go:813-832 | discarding and removing the discarded keeps every other remote tracked |
| `PricedPools.Consult` | core/tx_pool.go:796-822 | asks and discards in the source's order; unless the newcomer is refused, what is given up is worth the slots that are missing, or, for a local one, is everything |
| `PricedPools.AddedFits` | core/tx_pool.go:796-832 | with live entries tracked once, a transaction that is added leaves the pool within its slots, or, a local one, without remotes |
| `PricedPools.AddPriced` | core/tx_pool.go:778-877 | pool and price heaps together: the whole outcome is that of adding with the heaps' advice, the heaps are told of what was replaced, came and became local, every remote stays tracked, and a newcomer never takes the pool beyond its slots, save a local one once no remote is left, unless some live remote had more than one entry |
| `PricedPools.MaintainPriced` | core/tx_pool.go:1297-1324 | a maintenance run is stage by stage that of the pool; with the heaps told of what leaves in any portions, and rebuilt after a reset, every remote stays tracked, and once each after a reset |
| `PricedPools.Perform` | core/tx_pool.go:778-1736 | every operation keeps heaps and pool in step, and keeps single entries single unless a transaction handed in before is handed in again as a remote one |
| `PricedPools.Play` | core/tx_pool.go:318-375 | over every run from the empty pool, lists, lookup and price heaps stay in step: the pool is consistent and every remote is tracked; and after a remote newcomer the pool is within its slots, unless since the last rebuild a transaction was handed in again |
| `ReorgSchedulers.FirstOldHead` | core/tx_pool.go:1226-1234 | coalesced resets start at the first old head |
| `ReorgSchedulers.LastNewHead` | core/tx_pool.go:1226-1234 | coalesced resets end at the last new head |
| `ReorgSchedulers.DirtyCovers` | core/tx_pool.go:1236-1244 | the dirty set is exactly the union of the requested ones |
| `ReorgSchedulers.EventsKept` | core/tx_pool.go:1246-1253 | an event is held exactly when it is the latest put in at its account and nonce, or was there before and none was |
| `PoolEvents.HandedEvents` | core/tx_pool.go:1212-1253 | a run is handed exactly the latest queued event of each account and nonce |
| `PoolEvents.Announcement` | core/tx_pool.go:1284-1343 | a run announces exactly each promoted transaction, and each event it was handed that is not below its account's new nonce after a reset and was not promoted over; each once, and each account's by nonce |
| `PoolEvents.Serve` | core/tx_pool.go:1270-1344 | a run launched for a batch of requests announces exactly what it promoted, and the latest of the batch's events for their account and nonce that were not promoted over and, after a reset, are not below the next nonces it leaves; each once, and each account's by nonce |
| `ReorgSchedulers.ReorgScheduler.Launch` | core/tx_pool.go:1212-1223 | starts a run on everything collected exactly when none is active and a request waits |
| `ReorgSchedulers.ReorgScheduler.RequestReset` | core/tx_pool.go:1226-1234 | joins the current batch and returns its open channel |
| `ReorgSchedulers.ReorgScheduler.RequestPromote` | core/tx_pool.go:1236-1244 | joins the current batch and returns its open channel |
| `ReorgSchedulers.ReorgScheduler.QueueTxEvent` | core/tx_pool.go:1246-1253 | queues an event in the current batch without asking for a run |
| `ReorgSchedulers.ReorgScheduler.Shutdown` | core/tx_pool.go:1258-1264 | lets the waiting ones go after the current run |
| `ReorgSchedulers.OneRunAtATime` | core/tx_pool.go:1200-1267 | at most one run is active |
| `ReorgSchedulers.ClosedMeansServed` | core/tx_pool.go:1169-1187 | a requester's channel is closed only when a run covering its whole batch was made, with all its accounts and from its first old head to its last new one, or by the shutdown |
| `ReorgSchedulers.Play` | core/tx_pool.go:1200-1267 | over every run of the loop nothing asked for before a shutdown is lost, repeated or reordered between batches, and after one every channel given out is closed |
| `ReorgSchedulers.Drain` | core/tx_pool.go:1200-1267 | once runs end and the loop turns, every request has been served |
| `Feeds.ServeStep` | event/feed.go:159-165 | swapping a served case behind the waiting ones keeps track of who is served |
| `Feeds.RemoveStep` | event/feed.go:171-177 | shifting out a removed case keeps track in both views of the slice |
| `Feeds.Feed.Subscribe` | event/feed.go:72-92 | a new subscription waits in the inbox, also of a channel that has one |
| `Feeds.Feed.Unsubscribe` | event/feed.go:103-124 | removes one entry of the channel from the inbox or else from the cases, in place; removal during a Send is part of Send |
| `Feeds.Feed.Find` | event/feed.go:213-220 | the first index of a channel, or -1 |
| `Feeds.Feed.Delete` | event/feed.go:223-225 | the cases without one, shifted in place |
| `Feeds.Feed.Deactivate` | event/feed.go:228-232 | two cases swapped in place |
| `Feeds.Feed.Merge` | event/feed.go:134-137 | the inbox joins the cases |
| `Feeds.Feed.Send` | event/feed.go:128-190 | for any readiness, removals and subscriptions meanwhile, and channels subscribed any number of times: every merged subscription gets the value exactly once or was removed while waiting, and at no point has more been removed than was served or missed so far; the count is right; the cases left are those not removed |
| `Feeds.SentOnce` | event/feed.go:128-190 | by position in the log, a channel subscribed once gets the value at most once and never after its removal; it misses the value if and only if it was removed without having got it, and stays if and only if not removed |
| `StateTransitions.GasPool.AddGas` | core/gaspool.go:29-35 | adds gas; callers show it cannot overflow |
| `StateTransitions.GasPool.SubGas` | core/gaspool.go:39-45 | takes gas exactly when there is enough |
| `StateTransitions.PayableCoversDebit` | core/state_transition.go:300-388 | whoever passes the fee check has the debited amount, and a converted fee is within its maximum |
| `StateTransitions.PayableIff` | core/state_transition.go:300-364 | a message passes the fee check if and only if the balance has its gas at the highest allowed price and its gateway fee, for a CELO payer the value too; before Espresso the effective price, strictly more in tokens; converted fees are rounded down and within their maximum |
| `StateTransitions.DebitMeans` | core/state_transition.go:366-388 | what is debited is the gas at the effective price and the gateway fee with a recipient, converted for denominated messages |
| `StateTransitions.RefundMeans` | core/state_transition.go:657-664 | the most that is within the counter and the given part of the gas used |
| `StateTransitions.FeeShares` | core/state_transition.go:569-654 | with all parties different: the coinbase gets what the gas used paid above the minimum, the handler the minimum, or the sender without one, the gateway its fee, the sender the price of the gas left, and no one else anything |
| `StateTransitions.IntrinsicByByte` | core/state_transition.go:154-214 | 21000 or 53000 for a creation, 4 for every zero byte and 16 or 68 for every other, the alternative currency's surcharge, and nothing else |
| `StateTransitions.PayableCoversTransfer` | core/state_transition.go:301-314 | post-Espresso, passing the native fee check leaves enough for the value |
| `StateTransitions.PayableMissesTransfer` | core/state_transition.go:315-325 | before Espresso it need not: every value above zero has a balance that passes and then falls short |
| `StateTransitions.CreditsMatchDebit` | core/state_transition.go:569-654 | gateway, base, tip and refund exceed the debit by exactly the gateway fee as far as it was not debited; they add up if and only if it is zero, or has a recipient and the message is not denominated |
| `StateTransitions.UnownedGatewayFee` | core/state_transition.go:569-654 | a concrete message that passes every check and is credited more than it was debited |
| `StateTransitions.DenominatedCreditsMatch` | core/state_transition.go:588-605 | converted base, tip and refund add up to the converted debit, rounding included |
| `StateTransitions.CreditsNotNegative` | core/state_transition.go:580-605 | rounding included, base and refund are never negative, and the tip is not if and only if no gas was used or the price reaches the minimum |
| `StateTransitions.NegativeTip` | core/state_transition.go:580-605 | a concrete denominated message, with the base fee that follows from the minimum and the rate, that passes every check and is credited a negative tip |
| `StateTransitions.PriceReachesMinimum` | core/types/transaction.go:766-769 | the effective price stays within the cap and reaches the minimum exactly when tip and base fee do |
| `StateTransitions.PriceBelowMinimum` | core/types/transaction.go:766-769 | concrete prices whose cap reaches the minimum while the effective price does not |
| `StateTransitions.StateTransition.PayFees` | core/state_transition.go:267-289 | succeeds exactly when whitelisted, payable, within the block's gas and debited; then gas and debit are exact, and early failures change nothing |
| `StateTransitions.StateTransition.DebitFee` | core/state_transition.go:366-388 | debits exactly the fee from the sender |
| `StateTransitions.StateTransition.Admit` | core/state_transition.go:463-489 | passes exactly the messages the forks allow, each error exactly when it applies and none before it does |
| `StateTransitions.StateTransition.PreCheck` | core/state_transition.go:391-440 | passes exactly messages with the right nonce, sound 256-bit prices and a cap at the minimum, fake ones and calls without base fee excepted; each error exactly when it applies and none before it does |
| `StateTransitions.StateTransition.RefundGas` | core/state_transition.go:657-668 | the refund is the most within the counter and a half of the gas used, a fifth after Espresso, and the gas left returns to the block without overflow |
| `StateTransitions.StateTransition.CreditTxFees` | core/state_transition.go:569-654 | each account gets exactly its shares, in CELO or in the fee currency, and the CELO total grows by the debit |
| `StateTransitions.StateTransition.TransitionDb` | core/state_transition.go:451-566 | applies a message if and only if forks, nonce, prices, gas, whitelist, fee, tokens and transfer allow; gas used is what was spent less the capped refund and the block's gas falls by exactly that; every account's balance is what running the code left plus its exact share of the fee; beyond that CELO's total does not change and a fee currency's grows by exactly the undebited gateway fee; the sender's nonce moves on by one; a native transfer can only fail after Espresso if the price exceeds the cap |
| `StateTransitions.ApplyTransaction` | core/state_processor.go:129-190 | applied exactly when it can be; then it takes its gas used from the block, its result is that of its code run on the debited balances, and other currencies change only by that code |
| `StateTransitions.Process` | core/state_processor.go:104-119 | a block passes if and only if each transaction can be applied in turn within the gas the earlier ones left, on the balances and nonces they left; receipt i is that of transaction i on the balances before it, with exact prefix sums; at the end the pool's gas and the gas used make the limit |
| `StateTransitions.BlockNonces` | core/state_transition.go:391-403 | in a block the applied transactions of an account carry consecutive nonces, from the one it had before the block on |
| `StateTransitions.NoneAppliedTwice` | core/state_transition.go:391-403 | so no two applied transactions of one account have the same nonce |
| `StateTransitions.ComputeIntrinsicGas` | core/state_transition.go:154-214 | the exact sum, refused exactly when it does not fit 64 bits before the access list is added |
| `StateTransitions.AccessListMeans` | core/state_transition.go:207-210 | 2400 for an address of the access list and 1900 for a key, in 64 bits |
| `Ledgers.TotalCredit` | core/state_transition.go:637-646 | a credit changes the total by its amount whoever gets it |
| `DerivationPaths.ParseDerivationPath` | accounts/hd.go:68-118 | the loop computes the parser function |
| `DerivationPaths.ParseComponent` | accounts/hd.go:90-116 | an accepted component fits 32 bits, and a quoted one is in the hardened half |
| `DerivationPaths.Print` | accounts/hd.go:122-136 | the loop computes the printer function |
| `DerivationPaths.SplitPrinted` | accounts/hd.go:122-136 | splitting the printed form gives back its parts |
| `DerivationPaths.IntOfDecimal` | accounts/hd.go:100-104 | reading a printed number gives it back |
| `DerivationPaths.IntOfPrefixed` | accounts/hd.go:100-104 | any number written with a binary, octal or hexadecimal prefix, or in octal with a leading zero, is read back |
| `DerivationPaths.IntOfSigned` | accounts/hd.go:100-104 | a printed number with a sign in front is read as that number, or its negative |
| `DerivationPaths.ScanSeparated` | accounts/hd.go:100-104 | underscores do not change the value; they are flagged exactly when one does not follow a digit or the prefix |
| `DerivationPaths.SpaceIsSpace` | accounts/hd.go:91-92 | blanks, tabs and line ends are white space; no other printable ASCII character is |
| `DerivationPaths.TrimMeans` | accounts/hd.go:91-92 | trimming takes white space off both ends, all of it, and nothing else |
| `DerivationPaths.ComponentRule` | accounts/hd.go:90-116 | a component is the number it has between white space if that fits 32 bits; quoted, it is 2^31 more and must fit 31; everything else is refused |
| `DerivationPaths.RelativeContinues` | accounts/hd.go:71-88 | a relative path reads as the default root m/44'/52752'/0'/0 followed by it |
| `DerivationPaths.RootsRefused` | accounts/hd.go:71-88 | a path that starts with a slash, the empty path and the bare root are refused |
| `DerivationPaths.RoundTrip` | accounts/hd.go:68-136 | parsing the printed form gives the path back if and only if it is non-empty and of 32-bit components |
| `DerivationPaths.AcceptedFits` | accounts/hd.go:86-118 | every accepted path is non-empty and of 32-bit components |
| `DerivationPaths.PrintInjective` | accounts/hd.go:122-136 | different paths print differently |
| `DerivationPaths.NormalForm` | accounts/hd.go:68-136 | printing a parsed path and parsing it again gives the same path |

## Left out

- Lists inside the pool: the pool holds its lists as values; the list objects are proved to compute the same values, so aliasing between a list and its pool entry is not modelled.
- Price heaps inside the pool: `Pool.TxPool.Add` takes their answers as arbitrary advice, so its contract holds whatever they say; `PricedPools.AddPriced` puts the two together.
- Pool.TxPool.Add: takes the outcome of `validateTx` as a parameter, because signature, balance and gas checks are calls into state and contracts.
- Pool.TxPool.Reset: takes the chain state after the new head and the transactions of abandoned blocks as parameters; `PoolResets.Reinjected` finds the latter, over hashes and without sender recovery.
- The caps of a list in a view of the pool: views hold transactions only, so between the stages of a run caps are known to bound the transactions of their lists, and no more.
- Exchange rates in the pool: validation tries the debit at the current rate, so valid transactions have one; a head without a rate for a currency in use is excluded from the runs, and `PoolInvariant.PromoteIff` shows that it must be.
- What the price heaps are told during maintenance: how many left is told in arbitrary portions and at arbitrary points between the lookup before and the lookup after, not call by call; what they are told before the rebuild after a reset is skipped.
- `SetGasPrice`, `setGasLimit`, the journal, metrics, timers, subscriptions and the pool's read-only queries: easy members.
- Nonces are unbounded except where the next pending nonce is computed, which wraps at 64 bits.
- Stale counting across the whole pool: a heuristic that demotion deliberately does not update; the counter is exact only within the priced list's own operations.
- Denominated transactions in the price order: the comparison converts by fee currency although they are priced in CELO, so they are excluded from the ordering results.
- PriceHeaps.MultiCurrencyPriceHeap.Pop: the result is cheapest only where prices can be compared; see above for the exact limit.
- PricedLists.TxPricedList.UnderpricedFor: looks at live roots; that they bound everything held is stated in `Underpriced` where prices can be compared.
- Header validation, LRU caches, interrupted imports, light and lightest sync, the freezer, `SetHead` callbacks and `setHeadBeyondRoot`.
- Block execution inside insertion: state commits, trie garbage collection, receipts, logs and chain events.
- A transaction occurring twice on one chain: excluded by nonces in the original, and by the universe of offered blocks here.
- Section indexer checkpoints, children and the head event loop; the backend's own data. The unlocked write after a failed reset is an atomic step here.
- Requests that arrive after the shutdown: they are given the shutdown channel.
- Feed element types and panics on a wrong type.
- Code execution: what running a message does is a parameter, only bounded by not returning more gas than it was given. Token contracts credit and debit exactly or fail.
- StateTransitions.StateTransition.TransitionDb: the skipping of debit and credit for calls is not modelled.
- Nonces of contract accounts: running code changes balances only, as accounts that send messages have no code.
- JSON forms and iterators of derivation paths; strings are sequences of Unicode characters, not bytes.
- The standard library's heap and number scanner are modelled as part of this project.
