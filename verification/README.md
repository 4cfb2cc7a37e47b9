# A Dafny model of the node's core data structures

This project models ten parts of a Dash-derived C++ node in Dafny and proves what they promise.
Most parts come in two forms. A value model (datatypes and functions, one branch for each branch of
the code) carries the theorems. Classes and loops that update fields and arrays in place, as the
code does, are proved to compute what the value model says. Below, "object and value model agree"
means this second kind of result.

**Coins** (`CoinsModel`, `CoinsReads`, `CoinsWrites`, `CoinsRuns`, `CoinsOutputs`, `CoinsTraces`,
`CoinsUsage`, `CoinsCache`). A stack of caches of any depth over the database, with coins, Sapling anchors and nullifiers. Each
layer's FRESH and DIRTY flags are sound for the layer under it. The main theorem `RunRefines` says
that every run of reads, writes, flushes, syncs, pushes of a new cache and drops of the top one
answers like a list of flat maps, each with its own best hashes, and never throws. It asks of callers
what the source documents or asserts, and nothing else. `AddCoinsUnchecked` is
about the outputs of a connected block, and `RunSane` adds that the sanity check passes.

**Address manager** (`AddrManModel`, `AddrManInv`, `AddrManOps`, `AddrManRuns`, `AddrManClass`,
`AddrManEffects`, `AddrManCheck`, `AddrManDisk`, `AddrManRoundTrip`). One invariant ties together the id map, the
address map, the random order, both tables, the reference counts, the totals and the counts by
network. Every operation keeps it (`RunKeeps`), so `CheckAddrman` returns zero after every run
(`RunChecked`), and what any run built can be saved and loaded again (`RunSaveLoad`). What each
operation does to entries and tables is stated for every input (`AddUnknownDoes`, `AddKnownDoes`,
`GoodDoes`, `ResolveOneDoes`, `GetAddrDoes`).

**Check queue** (`CheckQueue`, `CheckQueueRuns`). The lock sections of the master and any number of
workers as a state machine, with notifications, spurious wake-ups and stopping. `WaitAnswers` is
the safety theorem and `WaitEnds` the liveness theorem; `NothingLost` accounts for all that is added.

**Database transactions** (`Transactions`, `TransactionIterator`, `TransactionObjects`). Nested
transactions over the database. `RunPlain` compares them to plain copies, and `SeekCollects` says
that the merging iterator visits exactly the visible keys in order.

**256-bit arithmetic and work** (`Limbs`, `ArithUint`, `ArithProduct`, `Compact`). Loops over arrays
of 32-bit limbs against integers modulo a power of two, the compact target encoding, and the work
of a block.

**Cuckoo cache** (`Cuckoo`, `CuckooRuns`, `CuckooCache`). `RunBounded` is about every run: live
elements are distinct and found, and the current epoch stays near its size. `InsertStores` says when
an insertion succeeds.

**Chain index** (`SkipHeights`, `Chain`). Skip pointers, ancestors, forks and locators over linked
block objects, and a bound on the walk along the skip list (`TurnsBound`).

**Bech32** (`Bech32`, `Bech32Codec`, `Bech32Loops`, `Bech32Field`, `Bech32Errors`). Round trips in
both directions, and error detection: the generator's three consecutive roots in the field of 1024
elements are computed from the constants of the loop, and `ThreeErrorsDetected` follows from them.
`DecodeIff` says exactly what decodes.

**Base58** (`Digits`, `Base58`, `Base58Loops`). Round trips in both directions, and buffers that are
large enough for every length.

**Compact blocks** (`CompactBlocks`, `CompactBlocksProofs`, `CompactBlocksScans`,
`CompactBlocksObject`). What a block under reconstruction holds, exactly (`InitDataExact`), and when
it becomes the sender's block.

`Collections` holds facts on maps and sums that several parts share.

## Where code and promise differ

The model follows the code. Each point names the members that state it; where a promise fails they
say exactly when.

- `SpendCoin` is documented to have no effect without an unspent output, yet it returns true for a
  spent entry that is still there (`SpendCoinReturns`, `SpendCoinTwice`). The coins do not change.
- `Sync` straight above the database leaves the memory counter too high whenever memory is counted
  for anchors, so that the sanity check fails (`SyncUsage`, `SyncedNotSane`).
- `AddCoin` has taken the old coin off the memory counter before it throws (`AddCoinThrowUsage`,
  `ThrowLeavesInexact`).
- `Flush` and `Sync` pass the local best hashes down even if they were never set (`FlushBestBlock`,
  `FlushBestAnchor`, `FlushForgetsBlock`, `FlushForgetsAnchor`). Coins, anchors and nullifiers do not
  suffer from it.
- The empty Sapling root, popped off and flushed, is known again, and no other root is
  (`PoppedReturns`, `PoppedEmptyRootReturns`).
- A read that threw for its type is answered after the commit into the database, with a value or as
  missing (`CommitAnswers`, `WrongTypeAfterCommit`, `WrongTypeBothWays`).
- The comment in the cuckoo cache names the first slot as the first to make way. It is the second
  (`FirstVictim`).
- The cuckoo cache reports the element that fills unused slots as present although it was never
  inserted. It reports no other element that was not (`RunSound`).
- The step of a block locator overflows 32 bits from the height 2^30 + 10 on (`StepFits`,
  `StepOverflows`).
- `LastCommonAncestor` returns nothing for two blocks with different genesis blocks, where its
  assertion does not fail.
- `CheckAddrman` compares the counts by network only for networks that have an entry, which is less
  than equality (`CheckedCounts`, `UncountedPasses`). The invariant states equality.

## Model

| member | source | states |
|---|---|---|
| `CoinsReads.GetCoinReads` | src/coins.cpp:70-77 | reading a coin through any number of caches returns what the one flat outpoint-to-coin map holds, and no answer at any depth changes although entries are pulled up |
| `CoinsReads.FetchCoinReads` | src/coins.cpp:53-68 | the entry pulled into a cache shows the coin of the flat map, keeps every cache sound, and changes no answer |
| `CoinsReads.GetAnchorReads` | src/coins.cpp:384-404 | anchor lookups return the flat answer, changing none |
| `CoinsReads.GetNullifierReads` | src/coins.cpp:406-417 | nullifier lookups return the flat answer, changing none |
| `CoinsReads.GetBestBlockReads` | src/coins.cpp:181-185 | the best block is that of the nearest layer that has one; remembering it changes no answer |
| `CoinsReads.GetBestAnchorReads` | src/coins.cpp:419-425 | the same for the best anchor |
| `CoinsReads.HaveInputsReads` | src/coins.cpp:491-501 | all inputs are available exactly if the flat map has every one of them |
| `CoinsReads.HaveShieldedReads` | src/coins.cpp:474-489 | shielded spends pass exactly if no nullifier is used and every anchor is known in the flat view |
| `CoinsWrites.AddCoinWrites` | src/coins.cpp:79-117 | a coin added over no unspent one, or with overwriting allowed, never throws, sets exactly that outpoint of the flat map unless its script begins with byte 0x6a or exceeds 10000 bytes, and touches nothing below |
| `CoinsWrites.SpendCoinWrites` | src/coins.cpp:138-158 | spending removes exactly that outpoint from the flat map and moves out the coin that was there |
| `CoinsWrites.SpendCoinReturns` | src/coins.cpp:138-158 | `SpendCoin` returns true exactly if there is a coin, or an entry for the outpoint, spent or not, lies in the cache or the database under it |
| `CoinsWrites.SpendCoinTwice` | src/coins.h:355-360 | counterexample: the second of two spends of one coin returns true too, although the documentation says it has no effect |
| `CoinsWrites.UncacheWrites` | src/coins.cpp:365-378 | an entry is dropped exactly if it is neither dirty nor fresh, and that changes no answer |
| `CoinsWrites.SetBestBlockWrites` | src/coins.cpp:187-189 | only the best block changes; the null hash makes the view below answer for it again |
| `CoinsWrites.PushAnchorWrites` | src/coins.cpp:427-445 | pushing any tree makes its root known and best (a null root leaves the best anchor to the view below); pushing the current root changes nothing |
| `CoinsWrites.PopAnchorWrites` | src/coins.cpp:447-460 | if the current root is known popping never fails its assertion, forgets exactly that root and makes the given one best |
| `CoinsWrites.SetNullifiersWrites` | src/coins.cpp:462-472 | exactly the nullifiers of a shielded transaction are marked or unmarked |
| `CoinsWrites.MergeCoinOk` | src/coins.cpp:255-317 | one dirty child entry over any sound parent entry: never the "FRESH flag misapplied" error; the result shows the child's coin and is sound for the view two levels down |
| `CoinsWrites.MergeAnchorsOk` | src/coins.cpp:192-225 | merged anchors show what the child showed and stay sound |
| `CoinsWrites.MergeNullifiersOk` | src/coins.cpp:227-248 | merged nullifiers show what the child showed and stay sound |
| `CoinsWrites.WriteDbOk` | src/txdb.cpp:104-169 | a batch written to the database makes it answer as the cache above it did, but for the empty root, which it always knows |
| `CoinsWrites.BatchWriteWrites` | src/coins.cpp:251-330 | writing a sound cache into any view below throws exactly for a null block hash at the database, makes that view answer as the child did, and touches nothing deeper |
| `CoinsWrites.FlushWrites` | src/coins.cpp:332-346 | after a flush the cache is empty but for its hashes, and it and its parent both answer what the cache answered; it throws exactly for a null block hash at the database; both hashes are handed on as they are |
| `CoinsWrites.SyncWrites` | src/coins.cpp:348-363 | the same for a sync, which keeps exactly the unspent coins cached, all clean |
| `CoinsWrites.WrittenAlike` | src/coins.cpp:332-363 | with best hashes of its own, or a best block straight above the database, a cache that is flushed or synced changes no answer at all, unless the empty root was popped |
| `CoinsRuns.StepRefines` | src/coins.cpp:53-501 | one operation on a stack of any depth does to the list of views what the plain operation does, returns the plain answer, keeps every layer sound and never throws |
| `CoinsRuns.RunRefines` | src/coins.cpp:53-501 | for every depth and every run within the documented and asserted preconditions of the source: no throw, all answers equal those of flat maps with each layer's own best hashes, and the final stack shows the final maps |
| `CoinsRuns.StartRefines` | src/coins.cpp:41-44 | an empty cache over any database starts out showing that database |
| `CoinsRuns.UsedNullifierRejected` | src/coins.cpp:474-489 | a nullifier used from some layer upwards makes `HaveShieldedRequirements` fail for every transaction spending it, after any run that keeps that layer and does not unmark it |
| `CoinsRuns.PushThenPop` | src/coins.cpp:427-460 | popping back to the previous root undoes the push of an unknown one: every answer at every depth is as before both |
| `CoinsRuns.FlushBestBlock` | src/coins.cpp:332-363 | a flush, and a sync, keeps the best block exactly if the cache has one of its own, or the cache below has none, or that one equals what lies below it |
| `CoinsRuns.FlushForgetsBlock` | src/coins.cpp:332-363 | counterexample over any database: a block is set, a cache is created above it and flushed or synced, and the best block is the old one |
| `CoinsRuns.FlushBestAnchor` | src/coins.cpp:332-363 | the same condition for the best anchor, which the database always keeps |
| `CoinsRuns.FlushForgetsAnchor` | src/coins.cpp:332-363 | the same for a pushed anchor |
| `CoinsRuns.PoppedEmptyRootReturns` | src/sapling/sapling_txdb.cpp:15-22 | counterexample: the empty root, popped off and flushed, is known again, because the database always answers for it |
| `CoinsRuns.PoppedReturns` | src/sapling/sapling_txdb.cpp:15-22 | of the roots popped off a cache and flushed to the database exactly the empty one is known again |
| `CoinsUsage.AddCoinThrowUsage` | src/coins.cpp:79-117 | when adding over an unspent coin throws, the memory counter is left exact if and only if the old coin's script takes no memory |
| `CoinsUsage.ThrowLeavesInexact` | src/coins.cpp:79-117 | counterexample over any database: a coin added twice, the second time without leave to overwrite |
| `CoinsUsage.SyncUsage` | src/coins.cpp:348-363 | after a sync the memory counter is exact if and only if a cache is below or no memory is counted for anchors |
| `CoinsUsage.SyncedNotSane` | src/coins.cpp:348-363 | counterexample over any database: a block is set, a tree pushed, the cache synced, and the sanity check fails |
| `CoinsUsage.StepUsage` | src/coins.cpp:79-472 | every other step keeps the memory counters of all layers exact |
| `CoinsUsage.RunSane` | src/coins.cpp:513-531 | after every run that keeps the contract and avoids that case of sync, the top cache passes the sanity check: legal flags on every entry and an exact counter |
| `CoinsOutputs.AddCoinsChecked` | src/coins.cpp:127-136 | with checking on, adding the outputs of any transaction, none of them null, meets the contract by itself: no throw, and the flat map gains exactly the outputs that are stored |
| `CoinsOutputs.AddCoinsUnchecked` | src/coins.cpp:127-136 | without checking, as for every connected block: for a coinbase, or if no output to be stored is known, no throw, the flat map gains exactly the outputs that are stored, and nothing below changes |
| `CoinsOutputs.AddCoinsStops` | src/coins.cpp:127-136 | for any cache: outputs are stored in turn up to the first whose outpoint lies unspent in the cache and may not be overwritten, which makes it throw; this is the state it leaves |
| `CoinsOutputs.AddCoinsThrows` | src/coins.cpp:127-136 | unchecked adding throws if and only if the transaction is no coinbase and some output to be stored lies unspent in the top cache |
| `CoinsTraces.AddSpendNoTrace` | src/coins.cpp:79-158 | a coin added to a cache that does not know its outpoint and spent there leaves the whole stack as it was, the counter included |
| `CoinsTraces.FlushSpendNoTrace` | src/coins.cpp:251-346 | with a flush in between, the cache flushed to has no entry after the spending |
| `CoinsTraces.SpendFlushNoTrace` | src/coins.cpp:251-346 | a coin fresh in the cache below, spent above, leaves no entry below after the flush |
| `CoinsTraces.ReadUncache` | src/coins.cpp:365-378 | reading a coin that is not cached and dropping it again leaves the cache and its counter as they were |
| `CoinsCache.CoinsDb.BatchWrite` | src/txdb.cpp:104-169 | throws on a null block hash and then changes nothing; otherwise the database answers afterwards as a sound cache of these maps over it answered before |
| `CoinsCache.CoinsDb.WriteCoins` | src/txdb.cpp:132-155 | the loop erases dirty spent coins and writes the other dirty ones, in whatever order they come, and empties the child's map if asked |
| `CoinsCache.CoinsDb.WriteAnchors` | src/sapling/sapling_txdb.cpp:59-77 | the loop never writes a tree under the empty root, and always empties the child's map |
| `CoinsCache.CoinsDb.WriteNullifiers` | src/sapling/sapling_txdb.cpp:40-57 | the loop ends in the nullifiers with every dirty mark applied, and always empties the child's map |
| `CoinsCache.CoinsViewCache.GetCoin` | src/coins.cpp:70-77 | object and value model agree: the fields of this object and of all below it end as the stack `CoinsModel.GetCoin` gives, with the same answer |
| `CoinsCache.CoinsViewCache.FetchCoin` | src/coins.cpp:53-68 | object and value model agree, down through all views below |
| `CoinsCache.CoinsViewCache.HaveCoin` | src/coins.cpp:171-174 | answers whether the flat map has the coin |
| `CoinsCache.CoinsViewCache.HaveCoinInCache` | src/coins.cpp:176-179 | true only if the flat map has the coin; no view below is asked |
| `CoinsCache.CoinsViewCache.GetBestBlock` | src/coins.cpp:181-185 | object and value model agree, down through all views below |
| `CoinsCache.CoinsViewCache.GetBestAnchor` | src/coins.cpp:419-425 | object and value model agree, down through all views below |
| `CoinsCache.CoinsViewCache.GetSaplingAnchorAt` | src/coins.cpp:384-404 | object and value model agree, down through all views below |
| `CoinsCache.CoinsViewCache.GetNullifier` | src/coins.cpp:406-417 | object and value model agree, down through all views below |
| `CoinsCache.CoinsViewCache.HaveInputs` | src/coins.cpp:491-501 | object and value model agree over the loop; a coinbase asks nothing |
| `CoinsCache.CoinsViewCache.HaveShieldedRequirements` | src/coins.cpp:474-489 | object and value model agree over both lookups of each spend, stopping at the first failure |
| `CoinsCache.CoinsViewCache.AddCoin` | src/coins.cpp:79-117 | object and value model agree, also in the half-done state left by the throw |
| `CoinsCache.CoinsViewCache.AddCoins` | src/coins.cpp:127-136 | object and value model agree over the loop, also in the state left by a throw |
| `CoinsCache.CoinsViewCache.SpendCoin` | src/coins.cpp:138-158 | object and value model agree, down through all views below |
| `CoinsCache.CoinsViewCache.Uncache` | src/coins.cpp:365-378 | object and value model agree; nothing below changes |
| `CoinsCache.CoinsViewCache.SetBestBlock` | src/coins.cpp:187-189 | object and value model agree; nothing below changes |
| `CoinsCache.CoinsViewCache.PushAnchor` | src/coins.cpp:427-445 | object and value model agree, down through all views below |
| `CoinsCache.CoinsViewCache.PopAnchor` | src/coins.cpp:447-460 | object and value model agree, also where the assertion fails |
| `CoinsCache.CoinsViewCache.SetNullifiers` | src/coins.cpp:462-472 | object and value model agree; nothing below changes |
| `CoinsCache.CoinsViewCache.BatchWriteAnchors` | src/coins.cpp:192-225 | the loop over the map ends in the merged anchors with the counter moved by exactly the difference, in whatever order entries come |
| `CoinsCache.CoinsViewCache.BatchWriteNullifiers` | src/coins.cpp:227-248 | the loop over the map ends in the merged nullifiers, in whatever order entries come |
| `CoinsCache.CoinsViewCache.BatchWrite` | src/coins.cpp:251-330 | throws exactly if some entry is misapplied, leaving some of the coins merged with an exact counter and nothing else changed; otherwise the loops end in the merged layer, and the child's maps end emptied or cleaned as asked |
| `CoinsCache.CoinsViewCache.Flush` | src/coins.cpp:332-346 | throws exactly if the view below would; otherwise object and value model agree at both levels |
| `CoinsCache.CoinsViewCache.Sync` | src/coins.cpp:348-363 | throws exactly if the view below would; otherwise object and value model agree at both levels |
| `CoinsCache.CoinsViewCache.SanityCheck` | src/coins.cpp:513-531 | recomputes flags and usage over the whole cache and passes exactly if all flags are legal and the counter is exact |
| `AddrManInv.CreateKeeps` | src/addrman.cpp:419-433 | a created entry joins every index consistently, as the one entry without a reference |
| `AddrManInv.DeleteKeeps` | src/addrman.cpp:459-474 | deleting an unreferenced entry leaves all indexes consistent |
| `AddrManInv.SwapKeeps` | src/addrman.cpp:435-457 | swapping two places of `vRandom` keeps it a permutation that every entry knows its place in |
| `AddrManOps.ClearNewKeeps` | src/addrman.cpp:476-492 | emptying a slot of the new table, and deleting the entry if that was its last reference, leaves all indexes consistent, also in the middle of a move |
| `AddrManRuns.ClearNewDoes` | src/addrman.cpp:476-492 | the slot ends empty, the tried table and the collisions do not change, and an entry that is not in the slot is untouched |
| `AddrManOps.ClearRefsFinds` | src/addrman.cpp:498-513 | the search over buckets from the entry's own onwards, stopping when the count is used up, removes every reference and no other, so that the assertion holds |
| `AddrManRuns.EvictKeeps` | src/addrman.cpp:519-544 | putting the occupant of a tried slot back into the new table, over whatever is there, keeps the invariant, changes no other tried slot and does not delete the entry being moved |
| `AddrManRuns.MakeTriedKeeps` | src/addrman.cpp:494-551 | the entry ends in the tried table, exactly its own slot changes there, and all counts and references agree again |
| `AddrManRuns.PlaceKeeps` | src/addrman.cpp:602-626 | whatever occupies the slot, no entry is left without a reference and all indexes agree |
| `AddrManRuns.AddSingleKeeps` | src/addrman.cpp:553-626 | keeps the invariant; a new id is fresh and for a routable address; what is not routable changes nothing |
| `AddrManEffects.AddUnknownDoes` | src/addrman.cpp:553-626 | an unknown address is added if and only if its slot is free or the holder terrible or held elsewhere too; it then has a fresh id, one reference, and the claim's data less the penalty; no other slot changes, and only the holder loses; otherwise all is as before |
| `AddrManEffects.AddKnownDoes` | src/addrman.cpp:570-626 | a known address gets the later time and the united services, and exactly when it gets one more slot |
| `AddrManEffects.AddAllDoes` | src/addrman.cpp:686-696 | adding many is the run of adding each, and answers whether any was added |
| `AddrManEffects.TerribleIff` | src/addrman.cpp:67-90 | terrible in seconds and counts: not tried for a minute, and from the future, a month old, or failing |
| `AddrManRuns.GoodKeeps` | src/addrman.cpp:628-684 | keeps the invariant in all branches; without the test no collision is recorded |
| `AddrManEffects.MakeTriedBook` | src/addrman.cpp:494-551 | the entry leaves all its new slots for its tried slot; whoever was there goes home with one reference, displacing the holder of that slot |
| `AddrManEffects.GoodDoes` | src/addrman.cpp:628-684 | for every input the new entries, tables, collisions and answer: moved if not tried and not to be tested against a filled slot, else remembered if fewer than ten are |
| `AddrManEffects.GoodMoves` | src/addrman.cpp:628-684 | the same spelled out: tried slot, no reference left, the evicted entry at home with one reference, and the times set |
| `AddrManRuns.AttemptKeeps` | src/addrman.cpp:698-716 | keeps the invariant and every address |
| `AddrManRuns.ConnectedKeeps` | src/addrman.cpp:849-866 | keeps the invariant and every address |
| `AddrManRuns.SetServicesKeeps` | src/addrman.cpp:868-882 | keeps the invariant and every address |
| `AddrManEffects.StatisticsDo` | src/addrman.cpp:698-716 | which fields an attempt, a connection and new services set, of the entry of that address and of no other |
| `AddrManRuns.CollisionIsReal` | src/addrman.cpp:910-947 | a pending collision whose entry is known has a tried slot that is occupied by a tried entry, so `ResolveCollisions_` never finds it free |
| `AddrManRuns.SelectTriedCollisionKeeps` | src/addrman.cpp:958-984 | answers exactly if the picked id is still known, with the tried entry of the same slot and no change; otherwise it only forgets the id |
| `AddrManRuns.ResolveOneKeeps` | src/addrman.cpp:899-953 | one turn keeps the invariant in all branches |
| `AddrManEffects.ResolveOneDoes` | src/addrman.cpp:895-956 | a collision is dropped, resolved by a move, or kept, exactly by the times of the two entries |
| `AddrManRuns.ResolveCollisionsKeeps` | src/addrman.cpp:895-956 | the whole loop keeps the invariant and only removes pending collisions |
| `AddrManEffects.ResolveCollisionsDoes` | src/addrman.cpp:895-956 | one such turn for each pending id, in order |
| `AddrManRuns.GetAddrReturns` | src/addrman.cpp:811-847 | returns exactly the eligible entries among the first places of the shuffled list, which are all places unless the limit is met; entries change in nothing but their place |
| `AddrManEffects.LimitIs` | src/addrman.cpp:815-821 | the limit is the largest number within both the share and the maximum |
| `AddrManEffects.GetAddrDoes` | src/addrman.cpp:811-847 | returns addresses of different known entries, all eligible, at most the limit; if fewer, all that are eligible |
| `AddrManRuns.StepKeeps` | src/addrman.cpp:553-984 | every operation keeps the invariant, empties no tried slot, never changes the address of an id, and hands out fresh ids |
| `AddrManRuns.RunKeeps` | src/addrman.cpp:553-984 | the same for every run |
| `AddrManRuns.RunCollisions` | src/addrman.cpp:662-665 | in every run from the empty manager at most ten collisions are pending, and each known one has an occupied tried slot |
| `AddrManCheck.ValidChecked` | src/addrman.cpp:1046-1149 | a consistent manager passes `CheckAddrman` |
| `AddrManCheck.RunChecked` | src/addrman.cpp:1046-1149 | so does every manager that a run from the empty one with positive times can reach |
| `AddrManCheck.CheckedPermutation` | src/addrman.cpp:1057-1086 | following each entry to its place and comparing sizes is enough to make `vRandom` a permutation |
| `AddrManCheck.CheckEntries` | src/addrman.cpp:1060-1091 | code zero exactly if every entry is in order, and then the collected sets are the tried ids, the reference counts and the counts by network |
| `AddrManCheck.CheckTriedTable` | src/addrman.cpp:1098-1113 | code zero exactly if every occupant is a tried entry in its own slot; what remains are the tried entries without a slot |
| `AddrManCheck.CheckNewTable` | src/addrman.cpp:1115-1128 | code zero only if every occupant is a new entry at its position, with what remains of the counts; another code only if the table is wrong |
| `AddrManCheck.CheckNetworks` | src/addrman.cpp:1139-1146 | code zero exactly if the counters agree for every network they have, and they have no fewer networks |
| `AddrManCheck.CheckAddrman` | src/addrman.cpp:1046-1149 | returns zero if and only if the key is not null and the manager meets the conditions of `Checked`, stated without the loops |
| `AddrManCheck.CheckedCounts` | src/addrman.cpp:1137-1146 | on what passes, the counts by network are right in full if and only if every network that has an address has a counter |
| `AddrManCheck.UncountedPasses` | src/addrman.cpp:1137-1146 | a manager that passes although its only address is not counted |
| `AddrManClass.AddrMan.Find` | src/addrman.cpp:406-417 | object and value model agree; nothing changes |
| `AddrManClass.AddrMan.Create` | src/addrman.cpp:419-433 | object and value model agree on every index |
| `AddrManClass.AddrMan.SwapRandom` | src/addrman.cpp:435-457 | object and value model agree on every index |
| `AddrManClass.AddrMan.Delete` | src/addrman.cpp:459-474 | object and value model agree on every index |
| `AddrManClass.AddrMan.ClearNew` | src/addrman.cpp:476-492 | object and value model agree, also in the middle of a move |
| `AddrManClass.AddrMan.MakeTried` | src/addrman.cpp:494-551 | object and value model agree over the search, the eviction and the assertions on the way |
| `AddrManClass.AddrMan.AddSingle` | src/addrman.cpp:553-626 | object and value model agree in state and answer (what that is: `AddUnknownDoes`, `AddKnownDoes`); the invariant is kept |
| `AddrManClass.AddrMan.Good` | src/addrman.cpp:628-684 | object and value model agree in state and answer (what that is: `GoodDoes`); the invariant is kept |
| `AddrManClass.AddrMan.Add` | src/addrman.cpp:686-696 | object and value model agree over the loop, in state and answer; the invariant is kept |
| `AddrManClass.AddrMan.Attempt` | src/addrman.cpp:698-716 | object and value model agree in state and answer; the invariant is kept |
| `AddrManClass.AddrMan.Connected` | src/addrman.cpp:849-866 | object and value model agree in state and answer; the invariant is kept |
| `AddrManClass.AddrMan.SetServices` | src/addrman.cpp:868-882 | object and value model agree in state and answer; the invariant is kept |
| `AddrManClass.AddrMan.ResolveCollisions` | src/addrman.cpp:895-956 | object and value model agree over the loop, in state and answer; the invariant is kept |
| `AddrManClass.AddrMan.SelectTriedCollision` | src/addrman.cpp:958-984 | object and value model agree in state and answer; the invariant is kept |
| `AddrManClass.AddrMan.GetAddr` | src/addrman.cpp:811-847 | object and value model agree over the loop, in state and answer; the invariant is kept |
| `AddrManDisk.NewOrderOk` | src/addrman.cpp:190-200 | the new entries are written once each, and buckets refer to each by its place in that list |
| `AddrManDisk.PairsOk` | src/addrman.cpp:326-336 | what is read back from the buckets is one pair per written slot, with no index out of range |
| `AddrManDisk.LoadTriedsOk` | src/addrman.cpp:287-319 | after loading, entry `k` is record `k`, in the tried table at its own slot if it was tried, and all indexes agree |
| `AddrManDisk.RestoreAllOk` | src/addrman.cpp:353-381 | with the bucketing unchanged every reference goes back to the slot it was written from |
| `AddrManRoundTrip.NewsFit` | src/addrman.cpp:273-278 | the saved new entries never exceed the limit that loading enforces, since each holds a slot |
| `AddrManRoundTrip.TriedsFit` | src/addrman.cpp:280-285 | nor do the tried entries |
| `AddrManRoundTrip.SaveLoad` | src/addrman.cpp:131-404 | for any order of writing and of pruning, loading what was saved succeeds with a consistent manager that has every address, table slot, reference count, persisted field and total of the old one, up to a renaming of ids |
| `AddrManRoundTrip.RunSaveLoad` | src/addrman.cpp:131-404 | the same for every manager that any run can build |
| `CheckQueue.MoveBatch` | src/checkqueue.h:113-119 | moves exactly the last `n` checks of the queue, last first |
| `CheckQueue.Evaluate` | src/checkqueue.h:124-126 | evaluates a batch up to the first failure |
| `CheckQueueRuns.OutcomeIs` | src/checkqueue.h:121-126 | a batch started in good standing comes out true exactly if all its checks are good, and then each was evaluated |
| `CheckQueueRuns.BatchFits` | src/checkqueue.h:112 | a batch has at least one check and never more than are queued |
| `CheckQueueRuns.CleanUpKeeps` | src/checkqueue.h:78-88 | reporting a batch, with the wake-up of the master after the last one, keeps the invariant |
| `CheckQueueRuns.DecideKeeps` | src/checkqueue.h:90-121 | returning, sleeping, stopping or taking a batch keeps the invariant |
| `CheckQueueRuns.NotifyKeeps` | src/checkqueue.h:181-185 | the notification of `Add`, whoever gets it, keeps the invariant: queued work is not left with all workers asleep |
| `CheckQueueRuns.StepKeeps` | src/checkqueue.h:68-198 | every step of any thread keeps: each check is queued, in one batch or done; `nTodo`, `nIdle` and `nTotal` count what they say; the verdict fits what is done; sleepers are woken in time |
| `CheckQueueRuns.WaitAnswers` | src/checkqueue.h:68-164 | for any number of workers, batch size and interleaving, every finished `Wait` returned true exactly if all checks added in its round are good, and then each was evaluated exactly once; no check is lost or doubled |
| `CheckQueueRuns.StepAccounts` | src/checkqueue.h:166-186 | a round ends only in a turn of the master, and accounts for all that was added since the last one |
| `CheckQueueRuns.NothingLost` | src/checkqueue.h:70-186 | in every run, finished rounds and current one together account for exactly what was added |
| `CheckQueueRuns.SomeoneCanMove` | src/checkqueue.h:90-102 | while the master waits some thread can act; if the master sleeps, a worker still holds a batch whose report will count |
| `CheckQueueRuns.WaitEnds` | src/checkqueue.h:68-129 | threads left to themselves take at most `Rank` turns under any schedule, and while the master waits a turn is always possible: `Wait` returns |
| `Transactions.ReadsFlat` | src/dbwrapper.h:619-653 | reads at any depth see the parent overlaid with the writes, minus the deletes; a read as another type throws |
| `Transactions.WriteFlat` | src/dbwrapper.h:598-612 | a write sets exactly that key, whatever was pending for it |
| `Transactions.WriteSound` | src/dbwrapper.h:598-612 | writes and deletes stay disjoint and the memory usage exact |
| `Transactions.EraseFlat` | src/dbwrapper.h:660-669 | an erasure removes exactly that key |
| `Transactions.EraseSound` | src/dbwrapper.h:660-669 | writes and deletes stay disjoint and the memory usage exact |
| `Transactions.ClearFlat` | src/dbwrapper.h:671-675 | a rollback answers as the parent |
| `Transactions.CommitFlat` | src/dbwrapper.h:677-685 | committing into a transaction makes it hold exactly what the child showed |
| `Transactions.CommitStores` | src/dbwrapper.h:677-685 | committing into the database leaves the bytes of what the child showed |
| `Transactions.CommitAnswers` | src/dbwrapper.h:677-685 | if what was written parses back, after a commit child and parent agree, and each read is answered as before if and only if the commit went into a transaction or the read did not throw for its type |
| `Transactions.WrongTypeAfterCommit` | src/dbwrapper.h:619-636 | what a read that threw for its type becomes: the value its bytes parse to as that type, or nothing if they do not |
| `Transactions.WrongTypeBothWays` | src/dbwrapper.h:619-636 | both happen, each with a concrete deserializer |
| `Transactions.RootCommit` | src/evo/evodb.cpp:56-64 | the root transaction commits into a batch that is written afterwards: in whatever order its containers are walked, the database ends as if it had been the target, and until then the root shows the old database |
| `Transactions.RunPlain` | src/dbwrapper.h:593-685 | every run of writes, erasures, commits, rollbacks and nested transactions matches plain copies of the content at every level, with exact accounts |
| `TransactionIterator.CurrentIsLeast` | src/dbwrapper.h:521-533 | the key shown is the least one left, and the iterator is valid exactly while a key is left |
| `TransactionIterator.SkipOk` | src/dbwrapper.h:511-519 | skipping hidden parent keys changes nothing of what will be visited |
| `TransactionIterator.NextOk` | src/dbwrapper.h:446-459 | moving on takes exactly the current key out of what is left |
| `TransactionIterator.SeekCollects` | src/dbwrapper.h:435-440 | from any seek point and at any depth the iterator yields every visible key at or after it, once, in lexicographic order |
| `TransactionIterator.SeekToFirstCollects` | src/dbwrapper.h:423-428 | the same from the start |
| `TransactionIterator.SeekValues` | src/dbwrapper.h:498-508 | with each key the iterator shows the value that a read of that key gives at that depth |
| `TransactionIterator.SkipDeletedAndOverwritten` | src/dbwrapper.h:511-519 | the loop skips to the first parent key that is neither deleted nor overwritten |
| `TransactionIterator.ForEach` | src/dbwrapper.h:423-459 | a caller's loop over the iterator collects the remaining keys, ascending |
| `TransactionObjects.Transaction.Read` | src/dbwrapper.h:619-636 | object and value model agree, up the chain of parents |
| `TransactionObjects.Transaction.Exists` | src/dbwrapper.h:643-653 | object and value model agree, up the chain of parents |
| `TransactionObjects.Transaction.Write` | src/dbwrapper.h:598-612 | object and value model agree; the parent does not change |
| `TransactionObjects.Transaction.Erase` | src/dbwrapper.h:660-669 | object and value model agree; the parent does not change |
| `TransactionObjects.Transaction.Clear` | src/dbwrapper.h:671-675 | object and value model agree; the parent does not change |
| `TransactionObjects.Transaction.Commit` | src/dbwrapper.h:677-685 | both loops into the parent, in whatever order, end as the value model says, with exact accounts at both levels |
| `TransactionObjects.Transaction.IsClean` | src/dbwrapper.h:687-689 | true exactly if nothing is pending, and then the transaction answers as its parent |
| `TransactionObjects.Transaction.GetMemoryUsage` | src/dbwrapper.h:691-702 | the exact size of all keys and values held; the guard against a negative total never fires |
| `ArithUint.Add` | src/arith_uint256.h:127-137 | the sum modulo two to the width, also when both operands are one number |
| `ArithUint.Complement` | src/arith_uint256.h:61-67 | all ones minus the number |
| `ArithUint.Increment` | src/arith_uint256.h:165-172 | plus one modulo two to the width |
| `ArithUint.Negate` | src/arith_uint256.h:69-76 | the negative modulo two to the width |
| `ArithUint.Sub` | src/arith_uint256.h:139-143 | the difference modulo two to the width; exact if not negative |
| `ArithUint.Compare` | src/arith_uint256.cpp:108-118 | the order of the numbers |
| `ArithUint.Bits` | src/arith_uint256.cpp:178-191 | the least number of bits that holds the number |
| `ArithUint.ShiftLeft` | src/arith_uint256.cpp:20-35 | multiplication by a power of two modulo two to the width, for every shift |
| `ArithUint.ShiftRight` | src/arith_uint256.cpp:37-52 | the floor of division by a power of two, for every shift |
| `ArithProduct.MulLimb` | src/arith_uint256.cpp:54-64 | the product with a 32-bit factor modulo two to the width |
| `ArithProduct.Mul` | src/arith_uint256.cpp:66-80 | the product modulo two to the width |
| `ArithProduct.Divide` | src/arith_uint256.cpp:82-106 | the exact floor quotient for every pair with a divisor that is not zero; zero and an exception otherwise |
| `Compact.SetCompact` | src/arith_uint256.cpp:198-216 | the value is the encoded number modulo two to the 256, and the number itself unless it overflows; both flags as defined |
| `Compact.OverflowsIff` | src/arith_uint256.cpp:211-214 | the overflow flag is set if and only if the encoded number is at least two to the 256 |
| `Compact.GetCompact` | src/arith_uint256.cpp:218-239 | the limbs give the encoding of the number, with the sign bit exactly if asked for and the mantissa is not zero |
| `Compact.EncodeDecodes` | src/arith_uint256.cpp:218-239 | decoding an encoding never exceeds the number, is short by at most its 2^-15th part, is not negative, does not overflow, and encodes to the same word |
| `Compact.EncodeMonotone` | src/arith_uint256.cpp:218-239 | a larger number never has a smaller encoding |
| `Compact.Low64` | src/arith_uint256.h:237-241 | the number modulo two to the 64 |
| `Compact.EqualTo` | src/arith_uint256.cpp:120-132 | equality with a 64-bit number |
| `Compact.TargetRoom` | src/chain.cpp:131-144 | a target that does not overflow is less than all ones, so adding one to it cannot wrap |
| `Compact.GetBlockProof` | src/chain.cpp:131-144 | for every word: zero for negative, overflowing or zero targets, otherwise exactly the floor of 2^256 over the target plus one |
| `Cuckoo.FastRangeFits` | src/util/fastrange.h:18-22 | the reduced hash is always a slot of the table |
| `CuckooRuns.PlaceFreeKeeps` | src/cuckoocache.h:405-412 | putting an absent element in its first dead slot keeps every live element single, at one of its slots, and first among them |
| `Cuckoo.LocsFit` | src/cuckoocache.h:240-250 | all eight slots of an element lie in the table |
| `CuckooRuns.ReviveKeeps` | src/cuckoocache.h:397-402 | reviving the first copy found keeps live elements single, even for the element that fills unused slots |
| `CuckooRuns.KickKeeps` | src/cuckoocache.h:427-432 | swapping the element in hand with an occupant keeps the invariant, and the occupant is then nowhere in the table |
| `CuckooRuns.FirstVictim` | src/cuckoocache.h:413-427 | the first entry to make way is the one in the second slot, where the comment says the first |
| `CuckooRuns.NextVictim` | src/cuckoocache.h:414-428 | after that it is the next of the eight slots, so that the element just put in is not the one to make way |
| `CuckooRuns.DisplaceKeeps` | src/cuckoocache.h:403-436 | however long the chain: the live elements are the old ones and the new one, less the one dropped, if any |
| `CuckooRuns.DisplaceChain` | src/cuckoocache.h:403-436 | the elements in hand one after the other: each but the last had all eight slots live; the last is dropped if and only if the depth limit was reached, and otherwise had a dead slot |
| `CuckooRuns.EpochCheckKeeps` | src/cuckoocache.h:286-318 | ages exactly at counter zero with a full current epoch, then discards exactly the entries of the last one; and leaves room for one more entry of the current epoch |
| `CuckooRuns.InsertKeeps` | src/cuckoocache.h:389-437 | after the ageing, the live elements are the old ones and the new one, less at most one that was dropped |
| `CuckooRuns.InsertStores` | src/cuckoocache.h:389-437 | an element with a dead slot, or lying in one of its slots, is stored and found and nothing is dropped; something is dropped only after as many full elements as the depth limit |
| `CuckooRuns.ContainsKeeps` | src/cuckoocache.h:466-476 | finds every live element; erasing takes that element, and no other, from the live ones, and leaves it to be found as promised |
| `CuckooRuns.RunBounded` | src/cuckoocache.h:286-476 | in every run from set-up live elements are distinct and found, and live entries of the current epoch exceed the epoch size by at most the larger of one and its sixteenth part |
| `CuckooRuns.RunSound` | src/cuckoocache.h:389-476 | in every run what is found was inserted in that run or is the element that fills unused slots, and that one is found without ever being inserted |
| `CuckooCache.Cache.Setup` | src/cuckoocache.h:336-349 | at least two slots, all dead; the epoch size with its 32-bit wrap-around |
| `CuckooCache.Cache.EpochCheck` | src/cuckoocache.h:286-318 | object and value model agree over both passes |
| `CuckooCache.Cache.Insert` | src/cuckoocache.h:389-437 | object and value model agree over search, displacement and flags; the invariant is kept |
| `CuckooCache.Cache.Contains` | src/cuckoocache.h:466-476 | object and value model agree; a live element is found, and only a flag may change |
| `SkipHeights.InvertLowestOneIs` | src/chain.cpp:80 | clears exactly the lowest set bit |
| `SkipHeights.SkipBack` | src/chain.cpp:83-91 | the height of the skip pointer is strictly less |
| `SkipHeights.TurnsBound` | src/chain.cpp:83-118 | from a height of n bits the walk to any lower height takes at most n squared turns, where the source reports simulations |
| `Chain.WalkIsLine` | src/chain.cpp:93-118 | so many steps to the parent reach the block of that height on the line |
| `Chain.BlockIndex.GetAncestor` | src/chain.cpp:93-118 | for every mix of skips and parent steps: exactly the block that the parent steps reach, or nothing outside the range; with all skip pointers set, in as many turns as `Turns` says, at most the square of the bits of the height |
| `Chain.BlockIndex.OneTurn` | src/chain.cpp:100-116 | one turn leads to an ancestor not below the target, with a skip pointer to the height that `NextHeight` gives |
| `Chain.BlockIndex.BuildSkip` | src/chain.cpp:125-129 | adding a block keeps all skip pointers right and set |
| `Chain.LastCommonAncestor` | src/chain.cpp:165-180 | the last block on both lines; nothing if the lines never meet |
| `Chain.ForkUnique` | src/chain.cpp:60-69 | that block is unique, so `FindFork` and `LastCommonAncestor` with the tip agree |
| `Chain.ActiveChain.SetTip` | src/chain.cpp:22-30 | although it stops at the first agreement, the chain is the whole line of the new tip |
| `Chain.ActiveChain.FindFork` | src/chain.cpp:60-69 | the highest common ancestor with the chain; nothing for an empty chain |
| `Chain.ActiveChain.GetLocator` | src/chain.cpp:32-58 | the ancestors at exactly the stepping heights, from the block to the genesis block, strictly descending; with more than eleven of them, two to the power of their number less twelve is below the height less nine |
| `Chain.StepFits` | src/chain.cpp:45-55 | up to the height 2^30 + 9 the doubled step stays within 32 bits |
| `Chain.StepOverflows` | src/chain.cpp:45-55 | from any greater height it leaves 32 bits before the genesis block is reached |
| `Bech32.StepLinear` | src/bech32.cpp:105-124 | a step of the checksum is linear over exclusive or |
| `Bech32.StepInjective` | src/bech32.cpp:105-124 | a step with a zero symbol loses no information: only zero leads to zero |
| `Bech32.PolyLinear` | src/bech32.cpp:42-128 | so is the checksum of symbol strings of any one length |
| `Bech32.PolyGroups` | src/bech32.cpp:166-177 | feeding the groups of a checksum to the loop gives that checksum |
| `Bech32.GroupsPoly` | src/bech32.cpp:166-177 | up to six symbols can be read off their checksum |
| `Bech32Codec.ChecksumVerifies` | src/bech32.cpp:152-177 | exactly the created checksum, and no other six symbols, makes values verify under an encoding |
| `Bech32Codec.ErrorDetected` | src/bech32.cpp:152-163 | two data parts of any length that differ only within six consecutive symbols, such as one, never both verify under one encoding |
| `Bech32Field.OnlyZero` | src/bech32.cpp:77-80 | the chosen element of the field of 1024 elements has order 1023: fewer turns by it leave no element but zero alone |
| `Bech32Errors.StepImage` | src/bech32.cpp:81-126 | a step of the loop multiplies the evaluated polynomial by the root and adds the symbol, for each of three consecutive powers: they are roots of the generator in the constants |
| `Bech32Errors.LowestIsZero` | src/bech32.cpp:84-87 | a polynomial with three terms within 1023 places that vanishes at all three roots has a zero lowest term |
| `Bech32Errors.ThreeErrorsDetected` | src/bech32.cpp:49-54 | up to three wrong symbols anywhere within 1023 consecutive ones, in data parts of any length, are always detected |
| `Bech32Errors.PrefixErrorDetected` | src/bech32.cpp:136-163 | strings that differ in at most one character of the prefix and one of the data never both verify |
| `Bech32Codec.DecodeEncode` | src/bech32.cpp:182-228 | for every legal lower-case prefix and symbols within the length limit, decoding an encoding returns the same triple |
| `Bech32Codec.EncodeDecode` | src/bech32.cpp:198-228 | whatever decodes is, in lower case, the encoding of what it decodes to |
| `Bech32Codec.DecodeIff` | src/bech32.cpp:197-228 | a string decodes if and only if it is printable, of one case and short enough, and its lower case is an encoding |
| `Bech32Codec.RevChar` | src/bech32.cpp:18-31 | the decoding table inverts the character set |
| `Bech32Codec.CharRev` | src/bech32.cpp:18-31 | and the other way round, up to case |
| `Bech32Codec.CharsetIs` | src/bech32.cpp:19 | the characters of all symbols |
| `Bech32Codec.KnownStrings` | src/test/bech32_tests.cpp:17-38 | the shortest test strings of BIP 173 and BIP 350 |
| `Bech32Loops.PolyMod` | src/bech32.cpp:42-128 | the loop computes the value the codec lemmas speak of |
| `Bech32Loops.ExpandHRP` | src/bech32.cpp:137-149 | the loop computes the value the codec lemmas speak of |
| `Bech32Loops.CreateChecksum` | src/bech32.cpp:166-177 | the loop computes the value the codec lemmas speak of |
| `Bech32Loops.Encode` | src/bech32.cpp:182-195 | the loops compute the encoding, for a prefix without capitals as the source asserts |
| `Bech32Loops.Decode` | src/bech32.cpp:198-228 | the loops compute the decoding with every refusal: mixed case, bad characters, misplaced separator, excess length, wrong checksum |
| `Digits.Fits` | src/base58.cpp:97 | numbers of `n` digits in one base fit `size` digits of another if they do so for one ratio of lengths and `size` keeps that ratio |
| `Base58.DecodeFits` | src/base58.cpp:52 | for every length the decoder's buffer holds the number |
| `Base58.EncodeFits` | src/base58.cpp:97 | for every length the encoder's buffer holds the number |
| `Base58.MulAdd` | src/base58.cpp:61-68 | the in-place carry loop multiplies the number in the buffer and adds a digit, ends without a carry, and leaves the shortest digit string |
| `Base58.DecodeEncode` | src/base58.cpp:38-125 | decoding an encoding, with any white space around it, gives the bytes back |
| `Base58.EncodeDecode` | src/base58.cpp:38-125 | whatever decodes is, but for white space around it, the encoding of what it decodes to |
| `Base58.EncodeValue` | src/base58.cpp:87-125 | the encoding has a leading one for each leading zero byte and is, as digits, the same number |
| `Base58.Alphabet` | src/base58.cpp:18 | the digits are exactly the digits and letters but 0, O, I and l, in ascending order |
| `Base58Loops.EncodeBase58` | src/base58.cpp:87-125 | the in-place algorithm computes the encoding of the number with its leading zeros |
| `Base58Loops.DecodeBase58` | src/base58.cpp:38-85 | the in-place algorithm computes the decoding with every refusal, including the length limit met half-way |
| `Base58Loops.CheckedRoundTrip` | src/base58.cpp:135-159 | a string decodes to `x` under a 32-bit limit if and only if it is the checked encoding of `x`, padded with white space, and `x` is within the limit |
| `CompactBlocks.Prefill` | src/blockencodings.cpp:61-76 | no index leaves the slots, and as many slots stay empty as there are short ids |
| `CompactBlocks.FreeSlots` | src/blockencodings.cpp:84-88 | the empty slots in ascending order, one for each short id |
| `CompactBlocksProofs.PrefillIs` | src/blockencodings.cpp:61-76 | exactly the transactions sent along are in their announced slots |
| `CompactBlocksProofs.PrefillIff` | src/blockencodings.cpp:60-76 | the transactions sent along are accepted if and only if each is one and its slot fits 16 bits and leaves room for the short ids |
| `CompactBlocksProofs.IdMapIs` | src/blockencodings.cpp:83-105 | if no short id occurs twice each is mapped to its own slot |
| `CompactBlocksProofs.StepKeeps` | src/blockencodings.cpp:108-164 | a step keeps: slots without short id as they are, filled ones with a known transaction of their short id, and the counter the number of filled ones |
| `CompactBlocksScans.PoolStepExact` | src/blockencodings.cpp:110-131 | after each transaction of the pool every slot holds the only match so far, and is empty with none or several |
| `CompactBlocksScans.ExtraStepExact` | src/blockencodings.cpp:136-160 | after each extra one a slot is empty if another transaction matched, and otherwise holds the first match |
| `CompactBlocksProofs.ScansOk` | src/blockencodings.cpp:108-164 | both loops keep that, with their early exits |
| `CompactBlocksProofs.InitDataOk` | src/blockencodings.cpp:51-170 | on acceptance every available slot holds the transaction sent along for it, or a known one with the short id announced for it |
| `CompactBlocksProofs.SlotsFit` | src/blockencodings.cpp:83-88 | in a message that deserialization lets through every slot number fits 16 bits |
| `CompactBlocksProofs.HonestSlotsFit` | src/blockencodings.h:117-119 | without that limit the slots of an honest announcement fit 16 bits if and only if it has at most 65536 transactions |
| `CompactBlocksProofs.InitDataStatus` | src/blockencodings.cpp:51-105 | the status for every message: invalid if and only if malformed, else OK if and only if short ids differ and no bucket overflows |
| `CompactBlocksScans.InitDataExact` | src/blockencodings.cpp:107-168 | on acceptance each short id has in its slot exactly what the transactions looked at settle, where each scan ends, and that the counter counts the settled ones |
| `CompactBlocksScans.SlotHolds` | src/blockencodings.cpp:107-168 | one match in the pool and no other transaction among the extra ones: that one is in the slot; no match: empty; two in the pool and no early exit: empty |
| `CompactBlocksProofs.HonestAccepted` | src/blockencodings.cpp:51-106 | an honest announcement of a block of legal size is refused by deserialization exactly above 65535 transactions; otherwise it is accepted exactly if its short ids differ and no bucket overflows, and fails if not |
| `CompactBlocksProofs.Rebuilt` | src/blockencodings.cpp:51-220 | if nothing at hand collides, filling in the transactions asked for gives the sender's list and the verdict on it |
| `CompactBlocksScans.InPoolAvailable` | src/blockencodings.cpp:107-136 | without collisions every transaction of the block that is in the pool is in its slot |
| `CompactBlocksScans.NothingMissing` | src/blockencodings.cpp:51-220 | if the pool holds the whole block, nothing is asked for and the block is rebuilt |
| `CompactBlocksProofs.FilledIff` | src/blockencodings.cpp:184-192 | the block can be filled exactly if enough transactions come, and available ones stay in place |
| `CompactBlocksProofs.FillBlockIs` | src/blockencodings.cpp:178-220 | invalid if and only if too few or too many transactions come; otherwise they fill the empty slots in order and the status is the verdict on the block |
| `CompactBlocksObject.PartiallyDownloadedBlock.PutPrefilled` | src/blockencodings.cpp:61-76 | the loop refuses exactly the bad index lists, and otherwise fills exactly the announced slots |
| `CompactBlocksObject.PartiallyDownloadedBlock.MapIds` | src/blockencodings.cpp:84-101 | the loop with its running offset gives each short id the next empty slot, and neither offset nor slot leaves 16 bits |
| `CompactBlocksObject.PartiallyDownloadedBlock.LookThrough` | src/blockencodings.cpp:110-165 | either loop, with its early exit, ends in the scan of the value model |
| `CompactBlocksObject.PartiallyDownloadedBlock.InitData` | src/blockencodings.cpp:51-170 | status as in the value model; on acceptance also slots and counter |
| `CompactBlocksObject.PartiallyDownloadedBlock.FillBlock` | src/blockencodings.cpp:178-220 | status and, on acceptance, transactions as in the value model; the object is emptied unless transactions run out |

## Left out

- CoinsRuns.RunRefines: the answer of `SpendCoin` in a run is the coin moved out; what it returns beside that is in `SpendCoinReturns`. The last cache over the database is not dropped.
- CoinsUsage.RunSane: leaves out the syncs for which `SyncUsage` shows the counter to be wrong.
- AddrManRuns.RunKeeps: the times given to `Good`, `Attempt` and `ResolveCollisions` are positive; with others `CheckAddrman` itself objects.
- AddrManEffects.GoodDoes: positive times, as for `RunKeeps`; so for `GoodMoves` and `ResolveOneDoes`.
- AddrManCheck.CheckAddrman: the table's buckets are within the array, as the fixed array sizes of the code enforce.
- AddrManRoundTrip.SaveLoad: for valid addresses, which every address added by a run is; with changed bucketing or another address map nothing is stated about the slots. The key is not part of the model of the file.
- Chain.ActiveChain.GetLocator: for heights up to 2^30 + 9, the exact range in which the step does not overflow.
- Chain.LastCommonAncestor: both blocks are given, as the code takes for granted.
- CompactBlocksObject.PartiallyDownloadedBlock.InitData: for messages that deserialization lets through (`Received`), which are the only ones it is called with; whether a bucket of the id map overflows is a parameter.
- CompactBlocksScans.NothingMissing: asks that the pool lists no transaction twice, as a memory pool does not; a repeated one clears its slot (`SlotHolds`).
- CompactBlocksProofs.Rebuilt: asks that nothing at hand has the short id of another transaction of the block; with such a collision the code falls back on the block check, which is a parameter.
- Base58Loops.CheckedRoundTrip: lengths within 32-bit `int`, the hash a parameter.
- Bech32Errors.ThreeErrorsDetected: the source also promises four errors within 89 characters, a fact of this one generator that only an exhaustive search shows; it is not proved.
- CuckooCache.Cache.Setup: the floating-point logarithm that gives the depth limit is a parameter of at least one.
- Chain.BlockIndex.GetAncestor: the bound on its turns is for lines on which every block but the first has its skip pointer, as `BuildSkip` leaves them.
- CheckQueueRuns.WaitAnswers: `nTodo` is unbounded where the code has 32 bits, and worker threads are not started again after a stop.
- The check queue is a state machine over values, one step for each lock section: there is no shared object, and the C++ memory model is not captured.
- The transaction iterator is a value, and nothing is written to the transaction while it is in use.
- The two tables of the address manager are maps from slots, not two-dimensional arrays; random draws, the clock, and the hash functions that choose buckets are parameters, so that the theorems hold for all of them.
- The address file is modelled as records and bucket lists, not as bytes; older formats are not read.
- Selection of addresses for connections (`Select_`, `GetChance`), `FindAddressEntry_` and the statistics functions of the address manager would only add easy members.
- `EmplaceCoinInternalDANGER`, `AccessCoin`, `AccessByTxid`, `ReallocateCache`, cursors, and the error-catching view of the coins database; the memory of hash map nodes is not counted.
- The splitting of one database write into several batches, crash recovery, LevelDB, and obfuscation of values.
- Getting a double from a big number, hexadecimal strings, bitwise operators, and `GetBlockProofEquivalentTime`.
- The packing of cuckoo flags into atomic bytes, `setup_bytes`, and concurrent calls of `contains`.
- `FindEarliestAtLeast` and the validity status of block index entries.
- The computation of short ids, the header and Merkle checks of a compact block, and the `extra_count` statistic, which is only logged.
- Consensus rules, wallet, networking, RPC and user interface.
