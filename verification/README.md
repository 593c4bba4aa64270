# A verified model of the transaction pool, the canonical chain and their neighbours

This project models the parts of go-ethereum that keep several data structures in agreement while they change, and proves in Dafny what the code relies on but does not write down. `dafny verify dfyconfig.toml` checks all of it.

- **The transaction pool** (`core/tx_pool.go`, `core/tx_list.go`, `core/tx_noncer.go`). A pooled transaction is in `pending` or `queue`, in the lookup `all`, and, if it is remote, in a price heap. The model is a class whose methods are the methods that run under the pool lock. Its invariant `Valid` says that the lookup is exactly the disjoint union of the two lists, that no account has a nonce in both, and that no transaction of a local account is filed as remote; `Executable` says that the pending nonces of every account run without a gap from its state nonce to its virtual nonce. The heaps of `container/heap` are implemented and verified (`Heaps.dfy`), as are the nonce-sorted map with its index and cache, the lists with their cost caps, and the two price heaps.
- **The canonical chain** (`core/headerchain.go`, `core/blockchain.go`, `core/forkchoice.go`). The key-value store is a record of maps, a batch is a sequence of writes that reads do not see until it is flushed. A hash is a free constructor over the header, so that it is injective, and a header fixes its whole ancestry. The main invariant is that the number-to-hash map is exactly the ancestor chain of the head.
- **The chain indexer** (`core/chain_indexer.go`). Sections are processed without the lock, one header at a time, while heads, reorganisations, queries and changes of the chain come in between. `ChainIndexer.Run` is any interleaving of these.
- **The feed** (`event/feed.go`). A sender and any number of subscribers share one array. `Feed.Run` is any interleaving of subscriptions, removals and the single steps of sends.
- **Gas and ether** (`core/state_transition.go`, `core/state_processor.go`, `core/gaspool.go`). The EVM is a function that adds no gas and conserves ether; everything around it is modelled (EIP-1559 and EIP-3529, sections "Specification").
- **Derivation paths** (`accounts/hd.go`). Parsing and printing of BIP-44 paths, section "Path levels".

## What turned out false, and exactly when it holds

- *A reset leaves the pending nonces of every account without a gap.* `TxPoolGaps.LoweredNonceLeavesGap` takes a pool through a run that does not: the state nonce goes from 5 down to 3, and of the two transactions put back the first is accepted and the second is refused for lack of funds. `TxPools.TxPool.ResetTo` says for every account when it happens, in terms of what the reset finds once the lost transactions have been put back (`TxPoolModel.LeavesGap`): exactly if the nonce is lowered from `n0` to `n1`, `n1` is queued and payable, some nonce between them is not, and the pending transaction at `n0` is still payable. What the reset finds is what was there before and those of the lost transactions that were accepted (`TxPools.AfterBatch`, while the pool has room for them; otherwise pending nonces can only have been cut). No gap can appear when no nonce is lowered (`TxPools.TxPool.RunReorg`).
- *After a run of the pool nothing executable is left in a queue.* A run without a reset keeps that for every dirty account that was executable (`TxPoolModel.NextIsPromoted`). A run that resets the pool does not: its virtual nonces start again from the state nonces, so promotion stops at what is pending already. `TxPoolGaps.NewHeadLeavesNextQueued` has a transaction pending at nonce 5, one queued at 6, and a new head that changes neither nonces nor balances: the one at 6 stays queued, at the virtual nonce, until the account is dirty again. `TxPools.TxPool.ResetTo` says for every account when this happens (`TxPoolModel.StaysBehind`): exactly if after the promotion the state nonce is queued, or it is pending and what was pending before from the state nonce on may all stay and ends right before a nonce that is still queued.
- *A full-block head that a rewind sets has state.* It lacks it exactly if the state of genesis was gone before the rewind and the way down came upon a missing body of the canonical chain with the head just above it (`RewindSpecs.Rewind.Forgotten`, stated for every rewind by `Rewinds.SetHead`): genesis then becomes the head without its state being put back, until the rewind gets to genesis itself. `Rewinds.GapForgetsState` is such a rewind: genesis, a header without its body, and a head block with state on top of it.
- *`GetAncestor` answers with an ancestor or fails.* The zero hash equals the canonical hash of every number above the head, so for such a number it is given the canonical hashes below. `HeaderChains.AncestorFound` spells out the answer for all inputs; for any other hash it is the ancestor, and it is found exactly when the header is stored, has that many ancestors and is near enough to the canonical chain.
- *A derivation path can be parsed from its writing.* The empty path is written `m`, which is refused; every other path is given back (`DerivationPaths.RoundTrip`).
- *Sections are never processed before a checkpoint.* A checkpoint added while an earlier section is being processed is given up when that section is done (`ChainIndexers.CheckpointGivenUp`). `ChainIndexers.ChainIndexer.Finish` says when and how: exactly if the head the section was started from is still stored, the section just processed becomes the last one, whatever was stored in the meantime.

## Model

| member | source | states |
|---|---|---|
| TxPools.TxPool.constructor | go-ethereum/core/tx_pool.go:279-332 | a fresh pool is empty, its structures agree and every account is executable |
| TxPools.Config.Sanitized | go-ethereum/core/tx_pool.go:189-224 | workable limits are kept and zero ones replaced by the defaults, so that all limits are at least one |
| TxPools.ValidateTx | go-ethereum/core/tx_pool.go:586-646 | accepted is exactly what is payable, within the gas limit, not below the state nonce, with a tip not above the fee cap and, if remote, not below the price floor, given the verdicts taken from outside; and the reason given for a refusal applies |
| TxPools.TxPool.EnqueueTx | go-ethereum/core/tx_pool.go:758-793 | the queue gains the transaction unless the one at its nonce is not outbid; exactly the replaced one is forgotten, and internal moves touch neither lookup nor heaps |
| TxPools.TxPool.PromoteTx | go-ethereum/core/tx_pool.go:811-841 | the pending list gains the transaction, or it is forgotten for a better one; with a free nonce it always goes in and nothing is forgotten |
| TxPools.TxPool.PromoteInternal | go-ethereum/core/tx_pool.go:811-841 | moving a transaction from the queue to pending always inserts it, because no account has a nonce in both |
| TxPools.TxPool.EnqueueAll | go-ethereum/core/tx_pool.go:1014-1018 | transactions taken out of pending all arrive in the queue, none replacing another |
| TxPools.TxPool.RemoveTx | go-ethereum/core/tx_pool.go:991-1037 | exactly the hash asked for leaves the pool, though lists are searched by nonce; what was pending above it is queued, and the account stays executable with its virtual nonce cut |
| TxPools.TxPool.Add | go-ethereum/core/tx_pool.go:655-753 | all structures still agree; nothing but the transaction becomes known, and it is filed as local exactly if it is added as such or its account is local; the account becomes local exactly if it is added as such and goes to the queue; while there is room it is accepted exactly if new, valid and outbidding whatever the account has at its nonce, goes over a pending one or else to the queue, and only a transaction it outbids is lost; without room only remote ones are lost besides, and an account's pending nonces are at most cut from some nonce on, the virtual nonce with them |
| TxPools.TxPool.MakeRoom | go-ethereum/core/tx_pool.go:674-709 | evicts as many remote transactions as make the room and no more, and no local one; an error loses nothing, says underpriced only if no remote transaction is cheaper, and overflow only if the run has evicted too much or all remote transactions together are too few |
| TxPools.TxPool.AddTxs | go-ethereum/core/tx_pool.go:941-953 | after a batch only transactions accepted in it have become known, as local or remote by whether they were added as local or their account was; a local one is lost only if one of them outbids it; while there is room for the batch nothing is lost otherwise, every account is what its own transactions one by one make of it and each transaction gets the answer that gives, dirty are exactly the accounts with one accepted at a free nonce, and local become exactly those with one added as local and queued |
| TxPools.TxPool.MakeLocal | go-ethereum/core/tx_pool.go:740-745 | making an account local moves its transactions in the lookup without losing any |
| TxPools.TxPool.SetGasPrice | go-ethereum/core/tx_pool.go:444-461 | raising the floor drops exactly the remote transactions with a tip below it |
| TxPools.TxPool.PromoteExecutables | go-ethereum/core/tx_pool.go:1312-1373 | for every account given, a run of queued transactions that are neither old nor unpayable becomes pending, from the lowest of them if the virtual nonce has come to it, up to the new virtual nonce, which is not queued afterwards; nothing pending is lost, what is old or unpayable is forgotten, and of what else is queued only the highest nonces beyond the limit of a remote account; nobody else is touched, and the result lists exactly what became pending |
| TxPoolModel.RoundPromotes | go-ethereum/core/tx_pool.go:1312-1373 | the function that computes a round of promotion keeps that promise |
| TxPoolModel.NextIsPromoted | go-ethereum/core/tx_pool.go:1312-1373 | for an executable account: a transaction that may stay at the virtual nonce becomes pending, with all that follow it without a gap, and without one nothing does |
| TxPoolModel.PromotionExtends | go-ethereum/core/tx_pool.go:1312-1373 | such a round moves the end of the gap-free interval and the virtual nonce together, and opens no gap |
| TxPools.TxPool.DemoteUnexecutables | go-ethereum/core/tx_pool.go:1514-1565 | for every account, exactly the pending transactions that are too old or unpayable are forgotten and nothing queued is; still pending is, if the transaction at the state nonce may stay, all up to the first that may not, and all others are queued |
| TxPoolModel.DemotionDemotes | go-ethereum/core/tx_pool.go:1514-1565 | the function that computes a demotion keeps that promise |
| TxPoolModel.NoGapIsEnough | go-ethereum/core/tx_pool.go:1514-1565 | it does so whenever no gap had been opened above the state nonce |
| TxPoolGaps.LoweredNonceLeavesGap | go-ethereum/core/tx_pool.go:1220-1307 | a reset that lowers a nonce leaves an inner gap, taken through the addition, the promotion, the reset and the refusal of one of the transactions put back |
| TxPoolGaps.NewHeadLeavesNextQueued | go-ethereum/core/tx_pool.go:1150-1174 | a reset to a new head that lowers no nonce leaves an executable transaction in the queue, taken through the additions, the promotion and the reset; a run without the head would make it pending |
| TxPools.TxPool.Reset | go-ethereum/core/tx_pool.go:1220-1307 | every account starts again from its new state nonce; while there is room it then is what the accepted ones of its lost transactions make of it, and otherwise its pending nonces are at most cut |
| TxPools.TxPool.DemoteAndUpdate | go-ethereum/core/tx_pool.go:1179-1192 | every account is demoted, and its virtual nonce is just above its highest pending one |
| TxPools.TxPool.ResetTo | go-ethereum/core/tx_pool.go:1156-1192 | after reset, promotion everywhere, demotion and update an account is executable exactly if what the reset found leaves no gap, and a transaction is left queued at its virtual nonce exactly if it stays behind; each account is promoted and then demoted as promised, known is what the reset found less what is too old, unpayable or beyond the queue limit, and exactly what became pending is returned |
| TxPoolModel.ResetLeavesGap | go-ethereum/core/tx_pool.go:1156-1192 | the same of one account: promotion from the lowered state nonce stops at the first nonce missing, and demotion looks at the lowest pending nonce only |
| TxPoolModel.LeftBehind | go-ethereum/core/tx_pool.go:1150-1192 | the transaction at the virtual nonce stays queued exactly if it is queued there after a promotion that starts from the state nonce, right behind what was pending before it |
| TxPools.TxPool.RunReorg | go-ethereum/core/tx_pool.go:1142-1199 | without a reset exactly the dirty accounts are promoted and nobody else changes, and a payable transaction queued at the virtual nonce of an executable dirty account becomes pending; with one all accounts are promoted and demoted; exactly what became pending is returned; then pending and queue are only cut, local accounts not, and only if the limits ask for it; the price heaps go over to the base fee that comes with a reset; the pool stays valid and every account executable unless the reset leaves a gap, so in any case if it lowers no nonce |
| TxPools.TxPool.Run | go-ethereum/core/tx_pool.go:1072-1139 | over any run of batches, reorganisation runs, price changes and evictions the structures agree, and every account stays executable as long as no reset lowers a nonce; the chain state and the price floor are those of the last step that set them |
| TxPools.TxPool.TruncatePending | go-ethereum/core/tx_pool.go:1378-1460 | the total is within the limit or every non-local account within its allowance; locals are untouched, each list keeps its lowest nonces and is not cut below its allowance, nobody cut is left with less than another non-local account, and the total undershoots by fewer than the offenders |
| TxPoolTruncation.EqualisedIsTruncated | go-ethereum/core/tx_pool.go:1398-1432 | cutting all earlier offenders to the length of the next one ends with that promise when the total has come down |
| TxPoolTruncation.ReducedIsTruncated | go-ethereum/core/tx_pool.go:1435-1458 | cutting all offenders evenly towards their allowance ends with it otherwise |
| TxPools.TxPool.TruncateQueue | go-ethereum/core/tx_pool.go:1463-1505 | exactly the excess is removed, or all that non-local accounts have; pending is untouched |
| TxPoolTruncation.EvictionIsOrderly | go-ethereum/core/tx_pool.go:1472-1504 | the accounts with the oldest heartbeats go first, and only the last one touched keeps a part: its lowest nonces |
| TxPools.TxPool.DropFromQueue | go-ethereum/core/tx_pool.go:1488-1503 | of one account either all is removed or exactly the highest nonces asked for |
| TxLookups.TxLookup.Add | go-ethereum/core/tx_pool.go:1759-1771 | the slot count stays the sum over all transactions |
| TxLookups.TxLookup.Remove | go-ethereum/core/tx_pool.go:1774-1791 | exactly the hash goes, and the slot count follows |
| TxLookups.TxLookup.RemoteToLocals | go-ethereum/core/tx_pool.go:1795-1808 | exactly the remotes of local accounts become local; the result is their number |
| TxLookups.TxLookup.RemotesBelowTip | go-ethereum/core/tx_pool.go:1811-1820 | finds exactly the remote transactions below the threshold |
| Heaps.RootIsMinimal | go-ethereum/core/tx_list.go:33-52 | the first element of a heap is least |
| Heaps.Push | go-ethereum/core/tx_list.go:75-81 | the heap has one element more and is in order |
| Heaps.Pop | go-ethereum/core/tx_list.go:90-94 | a least element is taken out, the others stay and are in order |
| Heaps.Remove | go-ethereum/core/tx_list.go:176-182 | the element at an index is taken out, the others stay and are in order |
| Heaps.Init | go-ethereum/core/tx_list.go:116-123 | any sequence becomes a heap of the same elements |
| TxSortedMaps.TxSortedMap.Put | go-ethereum/core/tx_list.go:75-81 | the index stays a duplicate-free heap of exactly the keys; the cache is dropped |
| TxSortedMaps.TxSortedMap.Forward | go-ethereum/core/tx_list.go:86-100 | removes exactly the nonces below the threshold, in order, and slices the cache to match |
| TxSortedMaps.TxSortedMap.Filter | go-ethereum/core/tx_list.go:107-141 | removes exactly the matching transactions and rebuilds the index |
| TxSortedMaps.TxSortedMap.Cap | go-ethereum/core/tx_list.go:145-166 | keeps the lowest nonces, as many as asked for, and slices the cache to match |
| TxSortedMaps.TxSortedMap.Remove | go-ethereum/core/tx_list.go:170-187 | removes exactly the nonce from map and index |
| TxSortedMaps.TxSortedMap.Ready | go-ethereum/core/tx_list.go:196-211 | takes exactly the gap-free run from the lowest nonce |
| TxSortedMaps.TxSortedMap.Flatten | go-ethereum/core/tx_list.go:218-239 | what the cache gives is the map sorted from scratch |
| TxSortedMaps.TxSortedMap.LastElement | go-ethereum/core/tx_list.go:243-246 | the transaction with the highest nonce |
| TxSortedMaps.FlatteningIsUnique | go-ethereum/core/tx_list.go:218-239 | there is only one way to sort the map, so cache and fresh sort are the same |
| TxSortedMaps.CappedFlattening | go-ethereum/core/tx_list.go:161-164 | a prefix of the cached sort is the sort of the capped map |
| TxSortedMaps.ForwardedFlattening | go-ethereum/core/tx_list.go:95-98 | what is left of the cached sort after forwarding is the sort of what is left |
| TxLists.TxList.Add | go-ethereum/core/tx_list.go:281-314 | an older transaction at the nonce is replaced exactly if it is outbid by the price bump; the caps keep bounding every member |
| TxLists.OutbidsByPercent | go-ethereum/core/tx_list.go:284-301 | outbidding is going up with both caps, each by at least the bump in percent rounded down |
| TxLists.OutbiddingGoesUp | go-ethereum/core/tx_list.go:284-301 | a transaction that was outbid never outbids the one that did, nor a later one |
| TxLists.TxList.Filter | go-ethereum/core/tx_list.go:332-361 | removes and invalidates what the specification says, whether or not the caps let it return early |
| TxLists.FilterIsExact | go-ethereum/core/tx_list.go:332-361 | that is exactly the transactions over a limit, and in strict mode those above the lowest of them |
| TxLists.TxList.Remove | go-ethereum/core/tx_list.go:372-383 | removes the transaction, and in strict mode hands back exactly those above it |
| TxLists.TxList.Cap | go-ethereum/core/tx_list.go:365-367 | hands back exactly the highest nonces beyond the limit |
| TxLists.StrictStaysGapFree | go-ethereum/core/tx_list.go:319-383 | a gap-free strict list stays gap-free under Filter, Forward, Remove and Cap |
| TxLists.CappedIsPrefix | go-ethereum/core/tx_list.go:145-166 | capping keeps a prefix of the nonces of exactly the length asked for |
| TxPricedLists.TxPricedList.Put | go-ethereum/core/tx_list.go:508-514 | a remote transaction is added to the urgent heap and every one tracked stays so; a local one changes neither heap |
| TxPricedLists.TxPricedList.Removed | go-ethereum/core/tx_list.go:519-527 | counting stale entries, and rebuilding when they are many, keeps every remote transaction in a heap |
| TxPricedLists.TxPricedList.Underpriced | go-ethereum/core/tx_list.go:531-559 | says yes exactly if something is tracked and nothing tracked is cheaper by the comparison of its heap |
| TxPricedLists.TxPricedList.Discard | go-ethereum/core/tx_list.go:565-601 | terminates; a failure without force loses no live entry, and comes only if all remote transactions together cover fewer slots than asked for; a success covers them, and would not with one pick less, or with force picks everything live; and no entry left in the floating heap is cheaper than one picked, although entries move there from the urgent heap in between |
| TxPricedLists.TxPricedList.Reheap | go-ethereum/core/tx_list.go:604-628 | the two heaps together hold every remote transaction exactly once |
| TxPricedLists.PriceOrderIsStrictWeak | go-ethereum/core/tx_list.go:431-455 | the price comparison orders heaps, with and without a base fee |
| TxPricedLists.PriceOrderMeans | go-ethereum/core/tx_list.go:431-455 | the price is the tip that the base fee leaves room for, then the fee cap, then the tip cap, and at one price the higher nonce goes first |
| TxNoncers.TxNoncer.Get | go-ethereum/core/tx_noncer.go:45-57 | reading caches what the state says and changes no answer |
| TxNoncers.TxNoncer.SetIfLower | go-ethereum/core/tx_noncer.go:70-83 | the answer becomes the lower of the two, also over the fallback |
| TxNoncers.TxNoncer.SetAll | go-ethereum/core/tx_noncer.go:86-91 | all answers are replaced; accounts not named fall back to the state |
| HeaderChains.HeaderChain.constructor | go-ethereum/core/headerchain.go:79-112 | the head is at first the header of the head block, or genesis; a consistent store whose head block and head header are one is taken up where it was left |
| HeaderChains.HeaderChain.Reorg | go-ethereum/core/headerchain.go:139-203 | the canonical map becomes exactly the chain of the last header; it fails, changing nothing, exactly if the first header's parent is missing |
| HeaderChains.DeleteCanonicalFrom | go-ethereum/core/headerchain.go:154-161 | the batch deletes all canonical hashes from a number on, though the loop reads the unchanged store |
| HeaderChains.RewriteToCrossLink | go-ethereum/core/headerchain.go:162-181 | stopping at the first number that already matches leaves every number below right too |
| HeaderChains.PileOn | go-ethereum/core/headerchain.go:182-193 | the remaining writes complete the chain of the last header |
| HeaderChains.HeaderChain.WriteHeaders | go-ethereum/core/headerchain.go:209-261 | every stored header has the sum of difficulties of its ancestry; the count is exactly that of headers not stored before, known headers being skipped |
| HeaderChains.StoreBatch | go-ethereum/core/headerchain.go:217-250 | the loop of WriteHeaders, against the batch that is not yet flushed |
| HeaderChains.HeaderChain.WriteHeadersAndSetHead | go-ethereum/core/headerchain.go:270-306 | a last header that is not canonical becomes the head exactly if it is heavier or past the terminal total difficulty, or as heavy and lower, or as heavy and high with the preference or the draw for it; the status says whether the head changed |
| HeaderChains.HeaderChain.ImportAll | go-ethereum/core/headerchain.go:375-399 | over any run of imports below the terminal total difficulty the head never gets lighter, nor higher without getting heavier |
| HeaderChains.HeaderChain.GetAncestor | go-ethereum/core/headerchain.go:406-438 | the answer is that of walking the parent links, found exactly when it can be within the allowance of individual steps |
| HeaderChains.Walk | go-ethereum/core/headerchain.go:418-437 | the same of its loop, whose jump over the canonical map agrees with the walk |
| ForkChoices.ReorgNeeded | go-ethereum/core/forkchoice.go:77-108 | a lighter header never wins below the terminal total difficulty, and one that loses is not heavier; between equally heavy ones the lower wins, and at one height the preserved or drawn one |
| ForkChoices.OneWinnerUnlessTied | go-ethereum/core/forkchoice.go:88-106 | two headers beat each other only if equally heavy and high, neither preserved, and both coins fall that way |
| BlockChains.BlockChain.LoadLastState | go-ethereum/core/blockchain.go:460-530 | fails, changing nothing, exactly when the head block cannot be read as a whole; over a consistent store the header head becomes that of the canonical chain, and if all markers agree the chain is valid |
| BlockChains.BlockChain.WriteHeadBlock | go-ethereum/core/blockchain.go:839-860 | one batch makes the block head of everything: its canonical hash, its transactions, all markers |
| BlockChains.FindCommon | go-ethereum/core/blockchain.go:2039-2083 | finds a common ancestor and the exact paths down to it from both heads; it cannot fail if all blocks can be read |
| BlockChains.BlockChain.WriteNewChain | go-ethereum/core/blockchain.go:2108-2118 | writing the new blocks lowest first leaves the store as described block by block |
| BlockChains.Reindexed | go-ethereum/core/blockchain.go:2120-2125 | taking out transactions only the old chain has makes the index that of the new chain |
| BlockChains.Recut | go-ethereum/core/blockchain.go:2127-2140 | cutting off higher numbers makes the canonical map that of the new chain |
| BlockChains.BlockChain.Reorg | go-ethereum/core/blockchain.go:2029-2183 | map and index become those of the new head's parent, or of the new head itself where it is an ancestor; an error changes nothing |
| BlockChains.HeadOnTop | go-ethereum/core/blockchain.go:839-860 | writing the head block on top makes them those of the new head |
| BlockChains.BlockChain.WriteKnownBlock | go-ethereum/core/blockchain.go:1280-1289 | afterwards the canonical map is exactly the chain of the block with nothing above it, and the transaction index has exactly its transactions, each at its block |
| Rewinds.FindStateful | go-ethereum/core/blockchain.go:594-638 | goes back to the first block with state, or to genesis at the pivot or a missing block |
| RewindSpecs.StatefulFound | go-ethereum/core/blockchain.go:594-638 | what it finds is a block of the canonical chain with state, not below the pivot unless the search starts there, or genesis |
| RewindSpecs.HighestWithState | go-ethereum/core/blockchain.go:594-638 | when no body of the canonical chain is missing from the old head block down, the head is the highest block, down to the pivot, that had state, and it has state |
| RewindSpecs.StateIffNotForgotten | go-ethereum/core/blockchain.go:588-646 | in any case the head lacks its state exactly if the state of genesis was gone and a missing body was come upon |
| RewindSpecs.StepDown | go-ethereum/core/blockchain.go:584-677 | moving the heads down by one header, as the code does it each time from the current heads, always gives the heads and states that the store before the rewind fixes for that height |
| RewindSpecs.MarkersStayPresent | go-ethereum/core/headerchain.go:592-611 | after every single write of a rewind the markers name present data, with no block head above the header head |
| Rewinds.NewBlockHead | go-ethereum/core/blockchain.go:588-646 | the new full-block head has state exactly if the body of the target is there or the genesis state is; genesis found on the way has its state put back |
| Rewinds.GapForgetsState | go-ethereum/core/blockchain.go:589-592 | a consistent chain with a missing body, opened and rewound to the gap, ends with genesis without state as its head block |
| Rewinds.NewFastHead | go-ethereum/core/blockchain.go:649-664 | the fast head becomes the target if its body is there, else genesis |
| Rewinds.UpdateHeads | go-ethereum/core/blockchain.go:584-677 | both block heads come down to the target, and the batch writes exactly their markers |
| Rewinds.DeleteAt | go-ethereum/core/headerchain.go:623-641 | all data at a number goes, side chains included, and nothing else |
| Rewinds.SetHead | go-ethereum/core/headerchain.go:574-651 | every single write is accounted for, two for each header gone down and one flush of all deletions, and after each the markers name present data; in the end exactly what is above the target is gone, the store is consistent again, heads and states are those fixed for the target, the head block has state except in the case stated, and loading the heads anew changes none |
| Rewinds.RewindEnds | go-ethereum/core/headerchain.go:642-646 | flushing the accumulated deletions, though the markers changed since, leaves exactly the chain of the new head |
| ChainIndexers.ChainIndexer.SetValidSections | go-ethereum/core/chain_indexer.go:479-491 | sets the count and removes exactly the heads beyond it |
| ChainIndexers.ChainIndexer.AddCheckpoint | go-ethereum/core/chain_indexer.go:130-143 | starts the index at the checkpoint unless as much is there already, also while a section is being processed |
| ChainIndexers.ChainIndexer.NewHead | go-ethereum/core/chain_indexer.go:243-300 | a reorganisation removes exactly the sections above the checkpoint that reach past it; a new head makes exactly the confirmed sections known, the first time only if the checkpoint is canonical |
| ChainIndexers.ChainIndexer.Begin | go-ethereum/core/chain_indexer.go:317-337 | a job starts with the section after the last stored head, which was found canonical |
| ChainIndexers.ChainIndexer.DropOne | go-ethereum/core/chain_indexer.go:479-491 | when the backend cannot be reset, the sections are given up one by one without the lock, and the index stays linked whatever comes in between |
| ChainIndexers.ChainIndexer.ProcessNext | go-ethereum/core/chain_indexer.go:397-412 | the job goes on exactly if the canonical header is there and is the child of the one before, so what was processed is linked to the head the job started from |
| ChainIndexers.ChainIndexer.Finish | go-ethereum/core/chain_indexer.go:348-368 | a section is stored exactly if its job is done and the head it started from is still stored; it is then the last one, even if a checkpoint beyond it was added meanwhile |
| ChainIndexers.ChainIndexer.Step | go-ethereum/core/chain_indexer.go:304-382 | a section is picked exactly as long as one is known that is not stored; its headers are processed one by one, and at the end it is stored or nothing more is known than what is stored |
| ChainIndexers.CheckpointGivenUp | go-ethereum/core/chain_indexer.go:130-143 | an interleaving after which only section 0 is stored although a checkpoint at section 5 had been added |
| ChainIndexers.ChainIndexer.VerifyLastHead | go-ethereum/core/chain_indexer.go:422-429 | only heads that are not canonical go, and all that remain above the checkpoint are canonical |
| ChainIndexers.LastHeadVouches | go-ethereum/core/chain_indexer.go:422-429 | comparing only the last head suffices: each earlier one is a section of parent links further back |
| ChainIndexers.ChainIndexer.Sections | go-ethereum/core/chain_indexer.go:434-440 | sections reported above the checkpoint are canonical |
| ChainIndexers.ChainIndexer.Run | go-ethereum/core/chain_indexer.go:304-382 | so they are after any interleaving of heads, reorganisations, checkpoints, chain changes, queries and processing |
| Feeds.Find | go-ethereum/event/feed.go:213-220 | the first case with the channel, or -1 exactly if there is none |
| Feeds.Feed.Subscribe | go-ethereum/event/feed.go:72-92 | the channel is one more of the inbox |
| Feeds.Feed.Unsubscribe | go-ethereum/event/feed.go:103-116 | a channel in the inbox is removed at once; otherwise its holder waits and the channel is among the cases |
| Feeds.Feed.RemoveLocked | go-ethereum/event/feed.go:118-123 | without a send in progress whoever waits finds and removes the channel |
| Feeds.Feed.Absorb | go-ethereum/event/feed.go:131-154 | a send starts with all subscriptions, inbox included |
| Feeds.Feed.TryNext | go-ethereum/event/feed.go:156-165 | a channel that takes the value is delivered to once and leaves the active prefix, and its index is tried again; any other is passed over |
| Feeds.Feed.SelectSend | go-ethereum/event/feed.go:178-181 | a blocked send goes on with the channel that became ready |
| Feeds.Feed.SelectRemove | go-ethereum/event/feed.go:170-177 | a removal during a send finds its channel, and counts as too early exactly if a case with the channel was active |
| Feeds.RemovedWhileSending | go-ethereum/event/feed.go:171-177 | deleting from the shared array shrinks the active prefix by exactly the removed channel or not at all |
| Feeds.Deactivated | go-ethereum/event/feed.go:228-232 | swapping a served case to the end of the active prefix keeps the account of the send |
| Feeds.Feed.Finish | go-ethereum/event/feed.go:184-189 | every channel the send started with got the value or was removed while active, and the number of deliveries is returned |
| Feeds.ReadySendCompletes | go-ethereum/event/feed.go:152-168 | a send whose channels all take the value at once is over after one step for each of them, and all that were active got it |
| Feeds.Feed.Run | go-ethereum/event/feed.go:128-190 | over any interleaving the array goes through exactly the states of the simple machine on sequences, and there is one entry for each send the events complete, with that account; no removal ever misses its channel |
| GasPools.GasPool.SubGas | go-ethereum/core/gaspool.go:39-45 | takes the amount exactly if it is there |
| StateTransitions.IntrinsicGas | go-ethereum/core/state_transition.go:123-161 | fails exactly if the data costs more than 64 bits hold, and is otherwise the sum of the prices, wrapped only by the access list |
| StateTransitions.PricesAre | go-ethereum/core/state_transition.go:123-161 | in numbers: every byte costs 4, one that is not zero 12 more or 64 before Istanbul, an address of the access list 2400 and a key 1900 |
| StateTransitions.StateTransition.BuyGas | go-ethereum/core/state_transition.go:197-217 | succeeds exactly if the balance covers fee cap and value and the block has the gas; then all gas is paid for and the value is still covered |
| StateTransitions.StateTransition.PreCheck | go-ethereum/core/state_transition.go:219-265 | no error exactly if the nonce, the sender and the fee caps are acceptable and the gas can be bought; a nonce too low or too high is named as that; an error leaves balances and block gas as they were |
| StateTransitions.StateTransition.RefundGas | go-ethereum/core/state_transition.go:367-382 | refunds at most the given part of the gas used, and pays back the rest to sender and block |
| StateTransitions.StateTransition.PayTip | go-ethereum/core/state_transition.go:339-358 | the coinbase gets the price of the gas used less what is burnt |
| StateTransitions.StateTransition.TransitionDb | go-ethereum/core/state_transition.go:277-365 | success exactly if the nonce is the sender's own and not the last, the sender has no code, from London on the caps fit and cover the base fee, and gas, value and intrinsic gas can be paid; the EVM runs where all gas is paid for and a call has raised the nonce; sender, block and coinbase get back exactly what is due, refunds being capped at a half or a fifth; all balances together lose exactly what is burnt for the gas used; the last balance check never fails |
| StateTransitions.ApplyTwice | go-ethereum/core/state_transition.go:219-340 | a message that went through is refused a second time, as its nonce is used up |
| StateTransitions.BaseFeeIsBurnt | go-ethereum/core/state_transition.go:339-358 | what is burnt per gas is the base fee from London on, nothing before |
| StateProcessors.AsMessage | go-ethereum/core/types/transaction.go:612-632 | messages of transactions carry their fields over, are not fake, and are priced as the state transition expects |
| StateProcessors.ApplyTransaction | go-ethereum/core/state_processor.go:96-150 | the receipt carries on the running total, and the block loses the gas used |
| StateProcessors.Process | go-ethereum/core/state_processor.go:60-94 | receipts count up the gas used, every transaction found its gas in the block, the pool never overflows, the ether burnt is the gas used times the base fee, and the nonces of each sender go up, so that no transaction is there twice |
| DerivationPaths.ParseDerivationPath | go-ethereum/accounts/hd.go:68-118 | the loop computes what the grammar of paths says |
| DerivationPaths.ToString | go-ethereum/accounts/hd.go:122-136 | the loop writes the canonical form |
| DerivationPaths.RoundTrip | go-ethereum/accounts/hd.go:68-136 | parsing the canonical form gives the path back, for every path but the empty one |
| DerivationPaths.ParsedIsRendered | go-ethereum/accounts/hd.go:68-136 | whatever was parsed can be written canonically and parsed again |
| DerivationPaths.HardenedRange | go-ethereum/accounts/hd.go:92-113 | a primed component must be below the hardened range, an unprimed one only fit 32 bits |
| DerivationPaths.DigitsOfNumeral | go-ethereum/accounts/hd.go:99-103 | reading a number written in any base from 2 to 16 gives it back whatever follows |
| DerivationPaths.PrefixedNumbers | go-ethereum/accounts/hd.go:99-103 | the prefixes 0x, 0o, 0 and 0b choose the base in which a component is read |
| DerivationPaths.WhitespaceIgnored | go-ethereum/accounts/hd.go:92-99 | white space around a component and before its prime does not matter |
| DerivationPaths.RelativeGoesOnFromRoot | go-ethereum/accounts/hd.go:72-88 | a path written without its m goes on from m/44'/60'/0'/0 |

## Left out

- TxPools.TxPool.PromoteTx: does not model 64-bit wrap-around of a nonce plus one.
- TxPools.TxPool.Add: does not bound the size of the pool afterwards, because a hash added again while its stale price entry is still queued makes the price heaps count it twice.
- TxPools.TxPool.AddTxs: without room for the whole batch it says what may be lost, but not which accounts are dirty; a run promotes whatever accounts it is given.
- TxPools.ValidateTx: takes the verdicts on type, encoded size, sign, signature and intrinsic gas as given.
- TxPools.TxPool.Reset: takes the transactions to put back as given; the walk over the old and new blocks that collects them is not modelled.
- Rewinds.SetHead: models a rewind without a root and with nothing in the ancient store, so no forced rewinding below its limit; the transaction index is not rewound, as in the source.
- BlockChains.BlockChain.LoadLastState: does not model the reset to genesis that follows a failure, nor the finalised and safe heads.
- ChainIndexers.ChainIndexer.Run: assumes that an index opened again was not started from a checkpoint, and that checkpoints name a hash.
- StateTransitions.StateTransition.TransitionDb: takes the EVM to conserve ether, so a contract that destroys itself in its own favour is not covered.
- StateTransitions.ApplyTwice: takes the EVM to lower no nonce of an account that has sent something and to give it no code, and to raise the nonce of a sender that creates; so where `StateProcessors.Process` speaks of nonces.
- TxPools.TxPool.RunReorg: the stages of a run it speaks of are ghost results; the events of transactions and the channel that ends the run are not modelled.
- BlockChains.BlockChain.WriteKnownBlock: assumes that no transaction is twice in a chain, which nonces ensure.
- In the pool, the lists of accounts are values; the class `TxLists.TxList` is proved against the same values, but that an account's list is updated in place is not modelled.
- Sorting and the priority queue of `prque` are used by what they promise; `Sorting.dfy` proves it of an insertion sort.
- The disk journal, events, metrics, logs, tracing and timers, including the eviction of idle accounts by age.
- Goroutine scheduling of the pool's reorganisation loop; the methods that hold the lock are taken as atomic.
- Signature recovery, hashing and encoding: a hash is injective, a sender is a field.
- Exactness of the count of stale price entries.
- LRU caches of headers, difficulties, numbers and blocks, which are taken to mirror the store.
- Snap sync, where the header head leads the block head; ancient-store migration; side-chain import; bad blocks; log and chain events of a reorganisation.
- Header validation: headers handed to the chain are linked and numbered, as it ensures.
- Child indexers, to which heads are cascaded.
- Type checks and panics of the feed, and channels' own buffers: readiness of a channel is given with each step.
- Consensus rewards, the DAO fork, receipts' logs, blooms and addresses, and intermediate state roots.
- Iterators over derivation paths and their JSON form.
