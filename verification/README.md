# Verified models of X Coin

X Coin is a Bitcoin/Ravencoin descendant whose proof of work is replaced by a lottery held every
minute. This project models the algorithmic cores of the node in Dafny and proves what they promise.
Hash functions, signatures, the clock and random numbers are parameters of the models; 32-bit words,
bytes and limbs are written out where the code depends on them.

| area | files |
|---|---|
| Address manager: five redundant structures kept consistent, saving and loading | `AddrMan.dfy`, `AddrManRuns.dfy`, `AddrManEffects.dfy`, `AddrManTable.dfy`, `AddrManFile.dfy`, `AddrManRoundTrip.dfy`, `AddrManDump.dfy` |
| Coin caches: write-back layers over a database refine one plain map | `Coins.dfy`, `CoinsRuns.dfy`, `CoinsView.dfy` |
| Partial Merkle trees (section "Partial Merkle branch format" of BIP 37) | `PartialMerkleTree.dfy`, `MerkleBlock.dfy` |
| Merkle roots in constant space | `MerkleRoot.dfy` |
| Block assembler: greedy package selection | `SetTotals.dfy`, `Miner.dfy`, `MinerRuns.dfy`, `MinerLoop.dfy` |
| Check queue: a master and workers over a mutex and two condition variables | `CheckQueue.dfy`, `CheckQueueRuns.dfy`, `CheckQueueLoop.dfy` |
| Lottery: draw, split, slots, registry, commitments, producer and validator | `LotteryDraw.dfy`, `LotteryTime.dfy`, `LotteryRegistry.dfy`, `LotteryHat.dfy`, `LotteryCodec.dfy`, `LotteryStamps.dfy`, `LotteryCoinbase.dfy`, `LotteryProducer.dfy` |
| Block index: skip pointers, active chain, forks, locators | `Chain.dfy`, `ChainForks.dfy` |
| Fixed-width integers and their compact form | `Arith.dfy`, `ArithShift.dfy`, `ArithDiv.dfy`, `Compact.dfy` |
| Cuckoo cache | `CuckooCache.dfy` |
| Rolling Bloom filter | `RollingBloom.dfy` |
| Base58 | `Digits.dfy`, `Base58.dfy`, `Base58Buffer.dfy` |
| Boolean formula evaluator | `BoolFormula.dfy`, `BoolFormulaProof.dfy` |

`Powers.dfy`, `ByteStrings.dfy` and `Options.dfy` hold shared arithmetic, byte strings and the option type.

Objects the code updates in place are classes whose methods are proved against functions on values;
the laws are proved of those functions. Loops are loops, with the tables of the address manager, the
limbs, the digit buffers, the stored subtrees and the shuffled pool as arrays.

## Where the code fails a promise, and exactly when

- The header of the partial Merkle tree promises at most `2*N-1` flag bits for `N` stored hashes. Three
  transactions with the last one matched need 4 bits for 2 hashes. `FlagBitsBound`: the promise holds if
  and only if no node with a single child lies above a match. The limit on bytes fails too, for 1025
  matched transactions (`BytesPromiseFails`); `EncodedBytes` gives the exact condition.
- Without a subsidy the split is empty, the producer pays the fees only, and the validator reads a share
  that is not there. `CheckLotteryCoinbase` says exactly when, `NoSubsidyInstance` is an instance.
- `x *= x` gives 0 (`SquareOfTwo`); `MulAssign` says exactly when the product is right. The other
  operators are right for an operand that is the object itself.
- The pass that adds identity claims does not look at ancestors: `ClaimsCanOrphan` is an instance,
  `ClaimsKeepOrderIff` the condition before the pass under which the block keeps its dependency order.
- The block assembler subtracts the modified fee of the first included ancestor and the plain fees of
  later ones, so corrected fees depend on the order (`FeesDependOnOrder`); `FeesAfter` says by how much
  they are off and `FeesExactIff` when they are not.
- A package that failed while an ancestor was in the block gets a new entry from the cached totals when
  another ancestor goes in; that entry counts the first one again, by its size. So a transaction that
  fits can be left out (`FittingIsLeftOut` is a whole run). `AddPackageTxs` says what is true of everything
  left out: it is hopeless, counting included ancestors by size; `HopelessDoesNotFit`: where those weigh four
  times their size, it does not fit or may not go in.
- After the local script changes, the registry's index by handle keeps the old entry. If the old id comes
  back under another handle, its first handle stays refused to others while it lives (`StaleHandleBlocks`).
  `RunsRefuseRightlyIff`: in a run, handles are refused only where another live node has them if and only
  if no heartbeat brings back, to stay, a node the index still names for another handle.
  `RefusalsIff` is the condition on one state, `HeardHarmlessIff` the one on a heartbeat.
- Late joiners are promised not to enter the draw of a slot. They do if and only if its hat is empty
  (`LateComerDrawsIff`). A node that was silent when the slot opened comes back by a later heartbeat if and
  only if it was known under the same handle before (`ComesBackIff`, with `SilentNodeComesBack` an instance).
- Lists of transactions that repeat a subtree have the root of the shorter list (`RepeatedKeepsRoot`). The
  flag of `ComputeMerkleRoot` tells exactly the lists with equal complete siblings, and `RootTellsLeaves`: other
  lists with the same root are the same, or exhibit a collision or an id that is the hash of a pair.
- `AddCoin` without permission to overwrite is only right when the view shows no coin
  (`AddCoinContract`, an equivalence); the code tests no more than its own cache.
- `SpendCoin` also reports success for entries that are already spent, for the dummy prevout and, directly
  above the database, for spent database records (`SpendCoinReturns`, an equivalence).
- `Flush` hands down the cache's best block even when it was never set (`FlushLosesBestBlock`);
  `FlushBestBlock` says when the answer survives.
- Commitments of more than 1024 ids do not parse, although the registry may hold more (`CommitRoundTripIff`).
- Heights are bounded by whole minutes since genesis plus one if and only if the genesis time opens a
  minute (`ElapsedMinutesBoundIff`); in slots the bound always holds (`HeightIsBounded`).
- The first swap of a cuckoo insertion takes the second slot; the comment beside it says the first
  (`NextLoc`). What an insertion promises does not depend on it. Epochs are shorter than 45% of the slots
  from 95443718 slots on (`EpochSize`). The packed flags get no bytes from 0xfffffff9 flags on, and enough
  of them if and only if there are fewer (`FlagBytes`).
- Relaying a block gives its Merkle root if and only if that is not lost to two equal children on the way
  to a match (`RelayBlock`, `ExtractIsComplete`); with distinct ids those mean a hash collision (`TwinsCollide`).
- The formula evaluator passes over characters in front of some formulas (`ResolveJunk`) and over
  ampersands in front of some later disjuncts (`ResolveJunkDisjuncts`), each an equivalence.

## Model

| member | source | states |
|---|---|---|
| `AddrMan.EmptyIsValid` | src/addrman.h:457-478 | a cleared manager satisfies the whole consistency check |
| `AddrMan.SwapKeeps` | src/addrman.cpp:101-119 | swapping two positions of the random list keeps every structure consistent and changes entries only in their positions |
| `AddrMan.EnterKeeps` | src/addrman.cpp:89-99 | a new entry under the next id keeps everything consistent, with that id alone in neither table |
| `AddrMan.CreateKeeps` | src/addrman.cpp:89-99 | creating an unknown address leaves exactly its entry between tables |
| `AddrMan.DeleteKeeps` | src/addrman.cpp:121-133 | for an entry in neither table the source's asserts hold, and deleting it changes other entries only in list positions and no table |
| `AddrMan.ClearNewKeeps` | src/addrman.cpp:135-148 | emptying a new slot frees exactly that slot, forgets its entry only with its last reference, and touches no other entry |
| `AddrMan.PlaceKeeps` | src/addrman.cpp:310-313 | putting an untried entry with fewer than 8 references at its hashed free slot keeps everything consistent |
| `AddrMan.VacateAllKeeps` | src/addrman.cpp:152-162 | taking an entry out of all new buckets leaves it with no reference and one entry uncounted |
| `AddrMan.EvictKeeps` | src/addrman.cpp:169-190 | the holder of a tried slot goes back to its new slot, the asserts hold, and entries between tables are unaffected |
| `AddrMan.MakeTriedKeeps` | src/addrman.cpp:150-196 | moving an untried entry with a success to the tried table passes every assert and keeps the consistency check |
| `AddrManRuns.UntriedIsInSomeBucket` | src/addrman.cpp:223-243 | some bucket holds an entry at its position if and only if the entry is untried, so `Good_` always finds one and never bails out |
| `AddrManRuns.GoodKeeps` | src/addrman.cpp:198-248 | marking an address good at a positive time keeps the consistency check; what it does is `AddrManEffects.GoodKnown` |
| `AddrManRuns.InsertKeeps` | src/addrman.cpp:299-319 | giving an entry a slot of the bucket chosen by its source, or forgetting it when it found none, restores full consistency |
| `AddrManRuns.AddKeeps` | src/addrman.cpp:250-321 | hearing of any address keeps the consistency check, whatever the random numbers; what it does is `AddrManEffects.AddUnknown` and `AddKnown` |
| `AddrManRuns.AttemptKeeps` | src/addrman.cpp:323-343 | an attempt keeps the consistency check |
| `AddrManRuns.ConnectedKeeps` | src/addrman.cpp:491-509 | a connection keeps the consistency check |
| `AddrManRuns.SetServicesKeeps` | src/addrman.cpp:511-527 | a service update keeps the consistency check |
| `AddrManRuns.SampleKeeps` | src/addrman.cpp:470-489 | the sample only permutes the random list and returns distinct known addresses, none terrible, up to the limit |
| `AddrManRuns.StepKeeps` | src/addrman.cpp:198-527 | every operation, with non-negative times and positive ones for `Good_`, keeps the consistency check |
| `AddrManRuns.RunsStayValid` | src/addrman.cpp:393-467 | every state of every run from an empty manager satisfies the consistency check: permutation with back-positions, inverse index, exact reference counts in 1..8, disjoint tables, hashed slots, exact counters |
| `AddrManEffects.ClearNewEffect` | src/addrman.cpp:135-148 | the holder of an emptied slot loses one reference, or is forgotten with its last; no other entry changes but in list position |
| `AddrManEffects.AddTells` | src/addrman.cpp:250-260 | an unroutable address changes nothing; the result is true if and only if the address is routable and its ip was unknown |
| `AddrManEffects.AddUnknown` | src/addrman.cpp:287-319 | an unknown ip is known afterwards if and only if its hashed slot was free or its holder terrible or in other slots too; then that slot holds the new entry, with the penalized time, and the holder has lost it; no other entry changes |
| `AddrManEffects.AddKnown` | src/addrman.cpp:264-319 | a known entry keeps its service and gets the services of both and the newer time; it gets one more slot exactly under the stated conditions, and no entry changes but it and the displaced holder |
| `AddrManEffects.EvictEffect` | src/addrman.cpp:169-190 | the evicted entry is untried with one reference in the new slot of its own source, whose holder loses it; no other entry changes |
| `AddrManEffects.GoodUnknown` | src/addrman.cpp:204-217 | without an entry for exactly this service only the time of the last success changes |
| `AddrManEffects.GoodKnown` | src/addrman.cpp:198-248 | the entry of the service is tried, in its tried slot and no new slot, dated, with no failures; whoever held the slot is untried and in the new slot of its own source; no other entry changes but the one displaced there |
| `AddrManEffects.AttemptIs` | src/addrman.cpp:323-343 | only the entry of exactly this service changes: it is dated, and a failure is counted if asked for and none was since the last success of any address |
| `AddrManEffects.FailuresCountOnce` | src/addrman.cpp:338-342 | any number of attempts since the last success count as at most one failure |
| `AddrManEffects.ConnectedIs` | src/addrman.cpp:491-509 | only the time of exactly this service changes: to the time given if it lags more than twenty minutes, never back |
| `AddrManEffects.SetServicesIs` | src/addrman.cpp:511-527 | only the services of exactly this service change |
| `AddrManEffects.FailuresTell` | src/addrman.cpp:34-52 | an entry of recent date not tried in the last minute is terrible exactly by its failures: three without a success, or ten in a week without one |
| `AddrManEffects.TerribleStays` | src/addrman.cpp:34-52 | a terrible entry not dated ahead stays terrible until it changes |
| `AddrManEffects.JustTriedIsSpared` | src/addrman.cpp:36-40 | an entry tried in the last minute is not terrible; otherwise one dated more than ten minutes ahead is |
| `AddrManEffects.SilentIsTerrible` | src/addrman.cpp:42-43 | an entry with no news for thirty days and no attempt in the last minute is terrible |
| `AddrManEffects.GetAddrCount` | src/addrman.cpp:470-489 | a request is answered with as many addresses as are not terrible, up to 23% of the list and 2500 |
| `AddrManEffects.EverySlotIsHashed` | src/addrman.cpp:14-32 | every slot of both tables is selected by some hashes, and slots depend on them by remainders only |
| `AddrManTable.Manager.constructor` | src/addrman.h:457-478 | an empty table object that is consistent |
| `AddrManTable.Manager.DoCreate` | src/addrman.cpp:89-99 | the object's new state is that of `Create`, and the id returned is the next one |
| `AddrManTable.Manager.DoSwapRandom` | src/addrman.cpp:101-119 | the object's new state is that of `SwapRandom` |
| `AddrManTable.Manager.DoDelete` | src/addrman.cpp:121-133 | the source's asserts hold where it is called, and the object's new state is that of `Delete` |
| `AddrManTable.Manager.DoClearNew` | src/addrman.cpp:135-148 | the object's new state is that of `ClearNew`, and deletion is only reached when its asserts hold |
| `AddrManTable.Manager.RemoveFromNew` | src/addrman.cpp:152-162 | the loop over all buckets removes every reference of the entry and no other |
| `AddrManTable.Manager.DoEvict` | src/addrman.cpp:169-190 | the object's new state is that of `Evict`, with its asserts holding |
| `AddrManTable.Manager.DoMakeTried` | src/addrman.cpp:150-196 | the object's new state is that of `MakeTried`, with its asserts holding |
| `AddrManTable.Manager.FindBucket` | src/addrman.cpp:227-237 | the scan from a random bucket returns a bucket if and only if some bucket holds the entry |
| `AddrManTable.Manager.DoGood` | src/addrman.cpp:198-248 | the object's new state is that of `Good` and is consistent |
| `AddrManTable.Manager.DoInsert` | src/addrman.cpp:299-319 | the object's new state is that of `Insert` |
| `AddrManTable.Manager.DoAdd` | src/addrman.cpp:250-321 | state and result are those of `Add`, and the state is consistent |
| `AddrManTable.Manager.DoAttempt` | src/addrman.cpp:323-343 | the object's new state is that of `Attempt` and is consistent |
| `AddrManTable.Manager.DoConnected` | src/addrman.cpp:491-509 | the object's new state is that of `Connected` and is consistent |
| `AddrManTable.Manager.DoSetServices` | src/addrman.cpp:511-527 | the object's new state is that of `SetServices` and is consistent |
| `AddrManTable.Manager.DoGetAddr` | src/addrman.cpp:470-489 | state and sample are those of `GetAddr`, and the state is consistent |
| `AddrManRoundTrip.RankIsPlace` | src/addrman.h:315-348 | the number written for an entry is its place among the written new entries |
| `AddrManRoundTrip.WithinLimits` | src/addrman.h:372-378 | the size limits never reject a consistent manager: entries at distinct slots are no more than the slots |
| `AddrManRoundTrip.LoadNewAll` | src/addrman.h:380-398 | reading back the new entries restores each of them under its number |
| `AddrManRoundTrip.LoadTriedAll` | src/addrman.h:400-419 | reading back the tried entries puts each into its free hashed slot and loses none |
| `AddrManRoundTrip.LoadBucketsAll` | src/addrman.h:421-437 | reading back the buckets puts every reference back into its slot |
| `AddrManRoundTrip.SavedIsRestored` | src/addrman.h:301-455 | loading what a consistent manager saved gives the same entry in every new and tried slot, the same counts and key, no loss, nothing pruned, and a consistent state |
| `AddrManDump.SaveNew` | src/addrman.h:315-325 | writes the referenced entries in order of id and gives each its place as number; the count assert holds |
| `AddrManDump.SaveTried` | src/addrman.h:326-334 | writes the tried entries in order of id |
| `AddrManDump.SaveBucket` | src/addrman.h:336-347 | writes the size of a bucket and the numbers of its entries |
| `AddrManDump.Save` | src/addrman.h:301-349 | the nested loops write exactly the serialized form |
| `AddrManDump.ReadNew` | src/addrman.h:380-398 | the loop reads the new entries as specified, also those of an unusable table, failing where the data ends |
| `AddrManDump.ReadTried` | src/addrman.h:400-418 | the loop reads the tried entries and counts those lost to occupied slots |
| `AddrManDump.ReadBuckets` | src/addrman.h:421-437 | the loops read all buckets and place the references the conditions allow |
| `AddrManDump.PruneEntries` | src/addrman.h:439-449 | the loop deletes exactly the entries left in neither table and counts them |
| `AddrManDump.Load` | src/addrman.h:351-455 | the reading loops rebuild exactly the state the specification reads, failing where it fails |
| `AddrManDump.SaveAndLoad` | src/addrman.h:301-455 | saving a consistent object and loading the result gives a consistent object with the same tables |
| `Coins.UsageAfterPut` | src/coins.cpp:77-96 | setting or erasing an entry with its memory accounted for keeps the usage counter equal to the sum over entries |
| `Coins.FetchKeepsViews` | src/coins.cpp:51-66 | loading an entry into any cache changes the view at no level and keeps all flags honest |
| `Coins.UncacheKeepsViews` | src/coins.cpp:504-511 | dropping an unmodified entry changes the view at no level |
| `Coins.AddCoinContract` | src/coins.cpp:77-96 | adding a coin succeeds with honest flags if and only if overwriting is allowed or the view has no coin there; then the top view changes at that outpoint alone |
| `Coins.SpendCoinRemoves` | src/coins.cpp:366-408 | spending removes exactly that coin from the top view, moves out the coin the view showed, and keeps flags honest |
| `Coins.SpendCoinReturns` | src/coins.cpp:366-408 | exactly when spending reports success |
| `Coins.NeverMisapplied` | src/coins.cpp:462-467 | the "FRESH misapplied" error is never thrown by a stack with honest flags |
| `Coins.MergeShows` | src/coins.cpp:441-492 | after merging one child entry the level below shows what the child showed, with an honest flag |
| `Coins.FlushKeepsViews` | src/coins.cpp:441-502 | flushing any cache leaves its own view and all above unchanged, makes the level below show the same, and keeps flags and usage right |
| `CoinsRuns.StepRefines` | src/coins.cpp:51-511 | every allowed operation on the cache stack does to the views what it does to plain maps |
| `CoinsRuns.RunRefines` | src/coins.cpp:51-511 | every run over a stack of any depth gives the answers and views of plain maps |
| `CoinsRuns.StartAgrees` | src/coins.cpp:45-49 | a bare database is an honest stack over the map of its unspent records |
| `CoinsRuns.FlushBestBlock` | src/coins.cpp:431-502 | exactly when a flush, into a cache or into the database, keeps the best block seen from the flushed cache |
| `CoinsRuns.FlushLosesBestBlock` | src/coins.cpp:431-502 | a flush of an empty cache after which the best block is an older one |
| `CoinsView.CacheStack.constructor` | src/coins.cpp:45-49 | a bare database is an honest stack |
| `CoinsView.CacheStack.FetchCoin` | src/coins.cpp:51-66 | the recursive lookup's new state is that of `Fetch`; found means cached |
| `CoinsView.CacheStack.GetCoin` | src/coins.cpp:68-75 | returns the coin the view shows, if any |
| `CoinsView.CacheStack.HaveCoin` | src/coins.cpp:421-424 | true if and only if the view shows a coin |
| `CoinsView.CacheStack.AddCoin` | src/coins.cpp:77-96 | state and exception are those of the specification, the counter included when it throws |
| `CoinsView.CacheStack.SpendCoin` | src/coins.cpp:366-408 | state, result and moved coin are those of the specification |
| `CoinsView.CacheStack.Uncache` | src/coins.cpp:504-511 | the new state is that of the specification |
| `CoinsView.CacheStack.WriteEntry` | src/coins.cpp:443-488 | one entry of a batch write: throws exactly on a misapplied flag, otherwise merges |
| `CoinsView.CacheStack.BatchWrite` | src/coins.cpp:441-495 | the erasing loop merges all entries in any order, throwing exactly when one is misapplied |
| `CoinsView.CacheStack.Flush` | src/coins.cpp:497-502 | the new state is that of the specification; an honest stack never throws |
| `CoinsView.CacheStack.GetBestBlock` | src/coins.cpp:431-435 | returns the best block of the nearest level that has one; remembering it changes no level's answer |
| `PartialMerkleTree.WidthIff` | src/merkleblock.h:67-69 | a position exists in a row if and only if its leftmost leaf exists |
| `PartialMerkleTree.CalcTreeHeight` | src/merkleblock.cpp:123-126 | the loop finds the first row of at most one node |
| `PartialMerkleTree.SiblingsDiffer` | src/merkleblock.cpp:42-60 | two nodes of one row with equal hashes over distinct ids exhibit two different pairs of the tree, in one row below them, with the same hash |
| `PartialMerkleTree.TwinsCollide` | src/merkleblock.cpp:100-108 | equal children on the way to a match over distinct ids exhibit two different pairs of the tree with the same hash |
| `PartialMerkleTree.DecodeEncoded` | src/merkleblock.cpp:62-116 | for every pair hash, decoding what was encoded for a node, anywhere in longer streams, gives its hash and exactly the matches below it, uses exactly its bits and hashes, and reports bad exactly where two children on the way to a match have equal hashes |
| `PartialMerkleTree.EncodedSize` | src/merkleblock.h:37-48 | no more hashes than leaves, and the exact number of flag bits |
| `PartialMerkleTree.HashesPerMatch` | src/merkleblock.h:37-41 | at most one hash plus one per match and row |
| `PartialMerkleTree.FlagBitsBound` | src/merkleblock.h:48-48 | the documented flag bound holds if and only if no node without a sibling lies above a match |
| `PartialMerkleTree.EncodedBytes` | src/merkleblock.h:32-49 | the documented limit on bytes holds if and only if the nodes with a single child above a match are no more than a number computed from the number of hashes, negative above 65535 of them |
| `PartialMerkleTree.FlagBitsPromiseFails` | src/merkleblock.h:48-48 | three transactions with the last one matched break the documented flag bound |
| `PartialMerkleTree.OneMoreMatched` | src/merkleblock.cpp:62-78 | a power of two and one transactions, all matched, store every hash and have one node with a single child in each row |
| `PartialMerkleTree.BytesPromiseFails` | src/merkleblock.h:32-35 | 1025 transactions, all matched, exceed the documented limit on bytes |
| `PartialMerkleTree.BadSticks` | src/merkleblock.cpp:80-116 | once a tree is found bad it stays bad |
| `PartialMerkleTree.DecodeIsSound` | src/merkleblock.cpp:80-116 | streams that decode to a node's true hash report only true leaves below it, in ascending order, or reading them met a pair other than the block's at that node with the same hash |
| `PartialMerkleTree.ExtractIsComplete` | src/merkleblock.cpp:118-165 | for every pair hash, an encoded block with padded flags extracts to exactly the matched transactions and indices and to its Merkle root, or to the null hash exactly where two children on the way to a match have equal hashes |
| `PartialMerkleTree.ExtractIsSound` | src/merkleblock.cpp:134-165 | any streams that extract to the true root report only pairs with the true transaction at its index, strictly ascending, or reading them met a pair other than the block's with the same hash |
| `MerkleBlock.PackFlags` | src/merkleblock.h:100-104 | bit `p` of the bytes is flag `p`, the padding is zero |
| `MerkleBlock.UnpackFlags` | src/merkleblock.h:93-99 | flag `p` is bit `p` of the bytes |
| `MerkleBlock.PartialTree.FromWire` | src/merkleblock.h:89-99 | hashes and unpacked flags as received, not marked bad |
| `MerkleBlock.PartialTree.FromBlock` | src/merkleblock.cpp:118-130 | building from a block stores exactly its encoding |
| `MerkleBlock.PartialTree.ParentOfMatch` | src/merkleblock.cpp:63-66 | the scan is true if and only if a transaction below the node is matched |
| `MerkleBlock.PartialTree.TraverseAndBuild` | src/merkleblock.cpp:62-78 | appends exactly the encoding of the node |
| `MerkleBlock.PartialTree.TraverseAndExtract` | src/merkleblock.cpp:80-116 | hash, counters, matches and the bad flag are those of the decoder |
| `MerkleBlock.PartialTree.ExtractMatches` | src/merkleblock.cpp:134-165 | result and bad flag are those of the extraction, appending to the caller's indices |
| `MerkleBlock.RelayBlock` | src/merkleblock.h:89-106 | build, pack, unpack and extract together return exactly the matches and indices and, exactly when no two children on the way to a match have equal hashes, the true root, within the documented number of hashes |
| `MerkleRoot.RootIsByRows` | src/consensus/merkle.cpp:10-43 | the root by depth-first descent is the one computed row by row, doubling the last hash of odd rows |
| `MerkleRoot.AddLeaf` | src/consensus/merkle.cpp:65-91 | after each leaf the array holds, for every one bit of the count, the hash of the last complete subtree of that row, and the flag tells equal complete siblings among the leaves read |
| `MerkleRoot.Sweep` | src/consensus/merkle.cpp:92-128 | the sweep over the right edge reduces the stored subtrees to the root |
| `MerkleRoot.ComputeMerkleRoot` | src/consensus/merkle.cpp:46-138 | the constant-space computation gives the Merkle root of every list, and reports mutation if and only if two complete siblings have the same hash |
| `MerkleRoot.RootTellsLeaves` | src/consensus/merkle.cpp:10-43 | lists with the same root are the same, or one is mutated, or two different pairs of their trees collide, or an id of one is the hash of a pair of the other |
| `MerkleRoot.RepeatedKeepsRoot` | src/consensus/merkle.cpp:14-30 | three transactions and the same with the last repeated have one root, and the longer list is mutated |
| `Miner.BlockIsClosed` | src/miner.cpp:465-512 | the chosen transactions are closed under ancestors |
| `Miner.CountGrows` | src/miner.cpp:351-360 | an ancestor has a smaller ancestor count, so sorting by it is a valid order |
| `Miner.PackageFits` | src/miner.cpp:351-360 | appending what is left of a package, sorted by ancestor count, puts every transaction once and after all its ancestors |
| `Miner.CorrectedCovers` | src/miner.h:118-130 | a corrected size or signature total is never below what is left of the package |
| `Miner.CorrectedExact` | src/miner.cpp:313-332 | for a transaction that has not failed, corrected sizes and signature operations are exact and corrected fees are off by a known amount |
| `Miner.UpdateKeeps` | src/miner.cpp:309-334 | accounting for one included transaction keeps all entries covering, and exact, fees included, where nothing failed |
| `Miner.FeesAfter` | src/miner.cpp:321-330 | after any ancestors in any order, corrected fees are the modified fees of what is left plus the priorities of all those ancestors but the first |
| `Miner.FeesExactIff` | src/miner.cpp:321-330 | they are the modified fees of what is left for every order of a set of ancestors if and only if there is at most one or none was prioritised |
| `Miner.FeesDependOnOrder` | src/miner.h:118-130 | two orders of the same two ancestors leave fees of 0 and of 10 |
| `Miner.PlainFees` | src/miner.cpp:441-444 | without prioritised ancestors in the block, the fees of an exact entry are those of what is left |
| `Miner.TestedFits` | src/miner.cpp:246-254 | a package whose covering totals pass the test stays within weight and signature limits |
| `Miner.AccountedGrows` | src/miner.cpp:446-517 | after a package went in, every transaction outside the block is still pending, still to come in order or hopeless |
| `Miner.BurdenGrows` | src/miner.cpp:446-463 | whatever package goes in, what the block would weigh with a transaction's remaining package, counting included ancestors by size, never falls, and neither do the signature operations |
| `Miner.HopelessGrows` | src/miner.cpp:446-463 | a hopeless package stays hopeless while the block grows |
| `Miner.MissIsHopeless` | src/miner.cpp:446-463 | a package that fails the test by its exact totals is hopeless |
| `Miner.HopelessDoesNotFit` | src/miner.cpp:446-463 | where included ancestors weigh four times their size, a hopeless package may not go in or exceeds a limit by its own remaining totals |
| `Miner.AboveTrans` | src/miner.h:72-84 | the order by fee rate with ties by id carries over: what is not above an entry is not above anything above it |
| `Miner.GetFeeIff` | src/policy/feerate.cpp:24-39 | fees reach the rounded minimum if and only if they are within one unit of the rate and, at a positive rate, at least one unit |
| `Miner.AtRateMeets` | src/policy/feerate.cpp:24-39 | fees at the rate and of at least one unit reach the rounded minimum |
| `Miner.LowerStill` | src/miner.cpp:441-444 | once one entry misses the rounded minimum, every entry with no higher fee rate is below the minimum rate |
| `MinerRuns.ChosenIsHighest` | src/miner.cpp:404-426 | no corrected entry and no entry still to come in order has a higher fee rate than the one chosen |
| `MinerRuns.ChoiceIsUnique` | src/miner.cpp:404-426 | every state of the selection has at most one choice |
| `MinerRuns.PackagesPay` | src/miner.cpp:441-517 | in every run, each package that goes in was chosen by totals within one unit of the minimum rate and of at least one unit at a positive rate |
| `MinerRuns.PlainIsExact` | src/miner.cpp:441-517 | without priorities and with weights four times the sizes, the totals a package went in by are those of the transactions it added |
| `MinerRuns.BlockPays` | src/miner.cpp:372-519 | in such a pool the fees of the whole block reach the minimum rate for its size, but for less than one unit a package |
| `MinerLoop.AtRateGoesOn` | src/miner.cpp:441-444 | the selection never stops for a low fee at an entry that is at the rate and pays at least one unit |
| `MinerRuns.FittingIsLeftOut` | src/miner.cpp:309-334 | a run of the whole selection, from the start to its end, that leaves out a transaction whose remaining package fits and may go in |
| `MinerLoop.BlockAssembler.FindBest` | src/miner.cpp:406-406 | the entry found is above or equal to every corrected entry |
| `MinerLoop.BlockAssembler.Choose` | src/miner.cpp:404-426 | it takes the best corrected entry if that is above the next in order or nothing is left there, and the next in order otherwise |
| `Miner.ClaimsKeepOrderIff` | src/miner.cpp:290-307 | adding identity claims keeps the dependency order for every order of the pool if and only if, before it, every claim outside the block that passes the tests has all its ancestors in the block |
| `Miner.ClaimsAre` | src/miner.cpp:290-307 | the pass adds only final, proved claims behind what was there, and leaves one out only where the finished block has no room for it |
| `Miner.ClaimsCanOrphan` | src/miner.cpp:290-307 | a claim whose parent was passed over goes in without it |
| `MinerLoop.BlockAssembler.constructor` | src/miner.cpp:104-116 | an empty block that satisfies the invariant, with the reserved weight and signature operations |
| `MinerLoop.BlockAssembler.AddToBlock` | src/miner.cpp:271-288 | adds exactly one transaction with its weight, signature operations and fee |
| `MinerLoop.BlockAssembler.OnlyUnconfirmed` | src/miner.cpp:233-244 | removes exactly the transactions already in the block |
| `MinerLoop.BlockAssembler.SortForBlock` | src/miner.cpp:351-360 | the package's transactions, each once, in order of ancestor count |
| `MinerLoop.BlockAssembler.UpdateDescendants` | src/miner.cpp:314-331 | corrects exactly the entries of the descendants outside the package, creating missing ones from the cached totals |
| `MinerLoop.BlockAssembler.UpdatePackagesForAdded` | src/miner.cpp:309-334 | after the nested loops entries cover, are exact where nothing failed, and exist for exactly the old ones and all descendants |
| `MinerLoop.BlockAssembler.AddSorted` | src/miner.cpp:508-512 | adds the sorted transactions with their exact sums and drops their entries |
| `MinerLoop.BlockAssembler.AddPackage` | src/miner.cpp:504-517 | adds exactly what is left of the package, within the limits, keeping block and entries right |
| `MinerLoop.BlockAssembler.PackageAllowed` | src/miner.cpp:473-499 | whether some transaction of the package lacks its proof, and whether all are final with allowed witnesses |
| `MinerLoop.BlockAssembler.AddPackageTxs` | src/miner.cpp:372-519 | terminates; the block is that of a run of the selection, in dependency order and ancestor-closed, with exact counters within the limits and nothing forbidden in it; it consists of packages each of which passed the tests with fees that met the minimum rate; and the `!inBlock` assert holds; if it runs to the end, everything left out is hopeless; if it stops for a low fee, everything left out is hopeless or, by the exact size of what is left of its package and fees off only by the priorities of included ancestors but the first, below the minimum fee rate, and the entry it stopped at misses the rate; if it gives up, more than 1000 packages in a row missed a limit and the block is within 4000 of the weight limit |
| `MinerLoop.BlockAssembler.TryClaim` | src/miner.cpp:294-305 | takes the transaction exactly when it is an unincluded, proved, final claim that fits |
| `MinerLoop.BlockAssembler.AddZeroFeeIdentityClaims` | src/miner.cpp:290-307 | takes exactly the claims of the specification; limits and sums hold afterwards |
| `CheckQueue.StepKeeps` | src/checkqueue.h:70-162 | every atomic step of master or workers keeps the invariant |
| `CheckQueue.BatchIff` | src/checkqueue.h:106-111 | a thread takes the largest batch that is one check, or within the batch size and an equal share of the queue |
| `CheckQueueRuns.TodoIsExact` | src/checkqueue.h:56-61 | in every interleaving `nTodo` counts the queued checks and those in unfinished batches, and no check is lost or duplicated |
| `CheckQueueRuns.WaitIsCorrect` | src/checkqueue.h:144-147 | the wait returns true if and only if every check added this round succeeds, and then all were called; nothing of the round leaks into the next |
| `CheckQueueRuns.NoLostWakeup` | src/checkqueue.h:81-105 | a master asleep without a pending notification implies a worker with an unfinished batch |
| `CheckQueueRuns.StepAdvances` | src/checkqueue.h:70-128 | every step but adding and the master's own entry leaves less work, except a spurious wakeup, which changes nothing |
| `CheckQueueRuns.NeverStuck` | src/checkqueue.h:70-128 | while the master is inside, some thread can make progress |
| `CheckQueueRuns.WaitReturns` | src/checkqueue.h:144-147 | under every scheduler without spurious wakeups a wait in progress returns |
| `CheckQueueLoop.Queue.Add` | src/checkqueue.h:150-162 | pushes the checks in order and counts them; how many workers are notified |
| `CheckQueueLoop.Queue.CleanUp` | src/checkqueue.h:81-87 | merges the verdict and the count; notifies the master exactly with the last batch of a worker |
| `CheckQueueLoop.Queue.PopBatch` | src/checkqueue.h:112-118 | moves the topmost checks of the stack into the batch |
| `CheckQueueLoop.Queue.Look` | src/checkqueue.h:92-118 | returns, sleeps or takes a batch exactly as the atomic step says |
| `CheckQueueLoop.RunBatch` | src/checkqueue.h:119-126 | the verdict is good if and only if it was and every check passes; none is called after a failure |
| `LotteryDraw.WinnersAreMembers` | src/lottery.cpp:1384-1404 | the winners are distinct members of the pool |
| `LotteryDraw.DrawIsInjective` | src/lottery.cpp:1396-1401 | the draw numbers can be recovered from the winners, so no arrangement is counted twice |
| `LotteryDraw.DrawIsOnto` | src/lottery.cpp:1396-1401 | every ordered selection of distinct members is drawn by some numbers |
| `LotteryDraw.WinnersOf` | src/lottery.cpp:1384-1404 | min(k, n) distinct members win, for every k and n |
| `LotteryDraw.PartialShuffle` | src/lottery.cpp:1395-1402 | the in-place swaps draw exactly the selection of the stream's numbers |
| `LotteryDraw.SelectWinners` | src/lottery.cpp:1384-1404 | the winners of the specification, including no ids, no prizes and more prizes than ids |
| `LotteryDraw.WinnerCountSteps` | src/lottery.cpp:1340-1350 | one winner before the first halving, one more with every halving, at most 1024 |
| `LotteryDraw.SplitIsFair` | src/lottery.cpp:1411-1421 | the parts add up to the total, differ by at most one and do not increase |
| `LotteryDraw.FairSplitIsUnique` | src/lottery.cpp:1411-1421 | the split is the only one with these properties |
| `LotteryDraw.SplitReward` | src/lottery.cpp:1411-1421 | the loop computes the split; it is empty for no winners or no reward |
| `LotteryTime.TimesIncrease` | src/lottery.cpp:1302-1324 | on a chain whose blocks pass the time check, times strictly increase and keep within a minute of one block a minute |
| `LotteryTime.HeightIsBounded` | src/lottery.cpp:1318-1322 | no height is more than one slot ahead of the clock that accepted it |
| `LotteryTime.ElapsedMinutesBoundIff` | src/lottery.cpp:1302-1324 | the bound in elapsed whole minutes holds if and only if the genesis time opens a minute |
| `LotteryTime.GetMedianTimePast` | src/chain.h:328-340 | the loop takes the median of the last eleven block times |
| `LotteryTime.MedianIsMiddle` | src/chain.h:328-340 | the median is a time of the window; half of the others, rounded up, are at or below it and the rest at or above |
| `LotteryTime.MedianOfValidChain` | src/chain.h:328-340 | on a valid chain the median is the time of the block half a window below the tip |
| `LotteryTime.ClampTimeToSlot` | src/lottery.cpp:1326-1338 | the time is above the median, and in the slot if and only if the median is below the slot's last second |
| `LotteryTime.ProducedTimeIsValid` | src/lottery.cpp:1326-1338 | on any valid chain the clamped time is in the next slot, above median and tip, and extends the chain once its slot may be produced |
| `LotteryRegistry.HandlesAreUnique` | src/lottery.cpp:1074-1133 | no two nodes share a handle |
| `LotteryRegistry.HeardKeeps` | src/lottery.cpp:1074-1133 | a heartbeat keeps every id the hash of its script and every handle pointing back to its node |
| `LotteryRegistry.SetLocalKeeps` | src/lottery.cpp:1022-1032 | changing the local script keeps that invariant |
| `LotteryRegistry.RunsStayOk` | src/lottery.cpp:1022-1140 | every registry of every run of heartbeats, script changes and resets satisfies the invariant |
| `LotteryRegistry.LiveHandleIsKept` | src/lottery.cpp:1095-1106 | a heartbeat for a live handle from another id is refused and changes nothing |
| `LotteryRegistry.OthersAreKept` | src/lottery.cpp:1095-1131 | a heartbeat changes no other node; it drops only the expired holder of its handle or, when full, one that is not the local node |
| `LotteryRegistry.StaleHandleBlocks` | src/lottery.cpp:1022-1032 | a run after which a handle no node has is refused |
| `LotteryRegistry.TakenIff` | src/lottery.cpp:1095-1102 | where the index is harmless, a handle is refused if and only if another live node has it |
| `LotteryRegistry.RefusalsIff` | src/lottery.cpp:1095-1102 | every handle, id and time is refused only for another live node that has the handle, if and only if no entry of the index names a node under another handle |
| `LotteryRegistry.SetLocalHarmless` | src/lottery.cpp:1022-1032 | a change of the local script keeps the index harmless |
| `LotteryRegistry.HeardHarmlessIff` | src/lottery.cpp:1078-1134 | a heartbeat keeps the index harmless if and only if it does not bring back, to stay, a node the index names for another handle |
| `LotteryRegistry.RunsRefuseRightlyIff` | src/lottery.cpp:1022-1140 | in every run, handles are refused in all states only for other live nodes that have them, if and only if no heartbeat brings such a node back |
| `LotteryRegistry.HeardKeepsExact` | src/lottery.cpp:1095-1131 | a heartbeat keeps the index exact |
| `LotteryRegistry.SetLocalExactIff` | src/lottery.cpp:1022-1032 | a change of script keeps the index exact if and only if it removes no node |
| `LotteryRegistry.RunsStayExactIff` | src/lottery.cpp:1022-1140 | in every run the index is exact in all states if and only if no change of script removed a node |
| `LotteryRegistry.ActiveSet` | src/lottery.cpp:1183-1209 | active sets are strictly sorted sets of known nodes and parse back when they have at most 1024 ids |
| `LotteryHat.HatIs` | src/lottery.cpp:1183-1200 | the frozen ids of a slot are those that joined before it opened and were last heard at most 180 seconds before |
| `LotteryHat.ActiveIff` | src/lottery.cpp:1183-1209 | an id is drawn from if and only if it is in the hat or, with nobody in it, was heard in the last 180 seconds |
| `LotteryHat.AcceptedIff` | src/lottery.cpp:1095-1115 | an admissible heartbeat is accepted if and only if no other live node is indexed for its handle and its node is not alive under another |
| `LotteryHat.SenderIs` | src/lottery.cpp:1106-1120 | the sender of an accepted heartbeat keeps its joining time if it was known under the same handle, and joins now otherwise |
| `LotteryHat.LateComersWait` | src/lottery.h:158-159 | who comes, or comes under another handle, after the slot opened is not in its hat |
| `LotteryHat.LateComerDrawsIff` | src/lottery.cpp:1201-1208 | such a node is drawn from if and only if the hat is empty and it was heard in the last 180 seconds |
| `LotteryHat.ComesBackIff` | src/lottery.cpp:1113-1115 | a heartbeat after the slot opened brings its sender into the hat if and only if it was known under the same handle before the slot and had been silent for more than 180 seconds |
| `LotteryHat.SilentNodeComesBack` | src/lottery.cpp:1113-1115 | a run in which a silent node enters the hat of a slot that has opened |
| `LotteryHat.NodeStory` | src/lottery.cpp:1022-1140 | in every run each node joined by an accepted heartbeat under the handle it has kept since, and has a last accepted one |
| `LotteryHat.HatIff` | src/lottery.cpp:1183-1200 | in every run an id is in the hat if and only if it joined by a heartbeat before the slot opened and its last one is at most 180 seconds older than that |
| `LotteryHat.HatHasBeaten` | src/lottery.h:158-159 | in every run each id in the hat had a heartbeat accepted before the slot opened |
| `LotteryHat.OnlyVerifiedDraw` | src/lottery.cpp:1074-1092 | in every run whoever is drawn from sent a verified heartbeat with the script it is paid to, within the size limit, as pinned, and not from the baked seed itself |
| `LotteryHat.OldestGoes` | src/lottery.cpp:1121-1132 | a node that goes for lack of room was heard no later than any that stays, and is not the local one |
| `LotteryHat.SizeIsLimited` | src/lottery.cpp:1121-1132 | a registry of at most 4096 nodes stays so after a heartbeat, or has one more with the local node the oldest |
| `LotteryRegistry.Registry.SetLocalScript` | src/lottery.cpp:1022-1032 | the object's new state is that of the specification |
| `LotteryRegistry.Registry.Displace` | src/lottery.cpp:1095-1106 | refuses a handle that is live under another id, otherwise removes its expired holder |
| `LotteryRegistry.Registry.Enter` | src/lottery.cpp:1107-1120 | refuses a change of handle while the node lives, otherwise enters it, keeping the time it joined |
| `LotteryRegistry.Registry.Evict` | src/lottery.cpp:1121-1131 | over the limit removes the node heard from longest ago, unless it is the local one |
| `LotteryRegistry.Registry.Heartbeat` | src/lottery.cpp:1074-1133 | state and result are those of the specification, eviction included |
| `LotteryRegistry.Registry.FindOldest` | src/lottery.cpp:1122-1126 | the scan finds the node heard from longest ago, the smallest id among equals |
| `LotteryRegistry.Registry.ActiveIdsForSlot` | src/lottery.cpp:1183-1209 | the loops collect the frozen ids of the slot, or the live ones if there are none; who that is, `LotteryHat.ActiveIff` says |
| `LotteryRegistry.Registry.ResetAll` | src/lottery.cpp:1135-1140 | forgets nodes and handles |
| `LotteryCodec.PushRoundTrip` | src/script/script.h:465-492 | reading a data push of any size below 2^32 gives back the data (the reader is in lines 530-589) |
| `LotteryCodec.CommitRoundTrip` | src/lottery.cpp:1451-1500 | the commitment of a strictly sorted set of at most 1024 ids reads back as that set |
| `LotteryCodec.CommitRoundTripIff` | src/lottery.cpp:1485-1499 | a commitment reads back if and only if its set is strictly sorted and has at most 1024 ids |
| `LotteryCodec.CommitsOnce` | src/lottery.cpp:1469-1500 | a script commits to one set only |
| `LotteryCodec.MakeActiveSetCommitment` | src/lottery.cpp:1451-1467 | builds exactly the commitment script |
| `LotteryCodec.ParseActiveSetCommitment` | src/lottery.cpp:1469-1500 | succeeds on exactly the scripts that commit to a set, with that set |
| `LotteryCodec.SortedAsBytes` | src/uint256.h:46-50 | ids are strictly sorted as numbers if and only if their bytes are in the order of the byte-wise comparison |
| `LotteryStamps.XvaRoundTrip` | src/lottery.cpp:780-851 | the script of any well-formed stamps, at most 1024, carries exactly those |
| `LotteryStamps.CarriesOnce` | src/lottery.cpp:810-851 | a script carries one list of stamps only |
| `LotteryStamps.ParseXvaCommitment` | src/lottery.cpp:810-851 | succeeds on exactly the scripts that carry stamps, with those stamps |
| `LotteryStamps.MakeXvaCommitment` | src/lottery.cpp:780-808 | builds the script of the usable attestations, in the order of the ids |
| `LotteryStamps.CheckXvaForIds` | src/lottery.cpp:853-891 | accepts exactly the scripts that carry one verified stamp for each id, in order |
| `LotteryStamps.StoreKeeps` | src/lottery.cpp:615-629 | the attestation store holds only well-formed rows whose signatures verify; a valid attestation is stored for its id, anything else changes nothing |
| `LotteryStamps.AllStamped` | src/lottery.cpp:780-808 | with an attestation for every id, the stamps are those of the ids in order and verify |
| `LotteryStamps.SeedRoundTrip` | src/lottery.cpp:702-748 | a seed signature is found and read back from its script |
| `LotteryStamps.CheckSeedBlockCommitment` | src/lottery.cpp:731-748 | accepts exactly the scripts that carry a valid seed signature |
| `LotteryStamps.KindsDiffer` | src/lottery.cpp:1568-1597 | the three kinds of commitment cannot be mistaken for one another |
| `LotteryCoinbase.DuesAddUp` | src/lottery.cpp:1645-1662 | the payments of all winners add up to subsidy and fees |
| `LotteryCoinbase.AcceptedPaysWinners` | src/lottery.cpp:1548-1666 | an accepted coinbase pays exactly the winners drawn from its set, in order, summing to subsidy and fees, with the fair split before fees |
| `LotteryCoinbase.AcceptedIsAttested` | src/lottery.cpp:1601-1611 | where required, every member of an accepted set has a valid attestation and the set a seed signature |
| `LotteryCoinbase.ScanOutputs` | src/lottery.cpp:1562-1597 | one pass finds the first output of each kind |
| `LotteryCoinbase.CollectPays` | src/lottery.cpp:1621-1630 | the outputs that are not OP_RETURN, unless some script is empty |
| `LotteryCoinbase.SumPays` | src/lottery.cpp:1632-1642 | the exact sum, failing exactly on a negative value or a sum above the money range |
| `LotteryCoinbase.ComparePays` | src/lottery.cpp:1646-1662 | accepts exactly the payments due to the winners; reads out of range exactly without a subsidy, when the count and the first winner match |
| `LotteryCoinbase.CheckAttested` | src/lottery.cpp:1601-1611 | true if and only if no attestation is required, or the first stamps cover every id and the first seed signature is valid |
| `LotteryCoinbase.CheckAmounts` | src/lottery.cpp:1632-1662 | accepts if and only if some fees make the payments those due to the winners; reads out of range exactly without a subsidy, when the amounts, the count and the first winner pass |
| `LotteryCoinbase.CheckLotteryCoinbase` | src/lottery.cpp:1548-1666 | accepts exactly the coinbases that commit to a set and pay its winners as due; reads out of range exactly when there is no subsidy and all checks before the first amount pass; rejects all others |
| `LotteryProducer.ProducerMeetsValidator` | src/lottery.cpp:1502-1546 | the coinbase of the eligible set is acceptable for it if and only if there are at most 1024 ids, no winner script is OP_RETURN, the attestor signed where required, there is a subsidy, and subsidy and fees are in range; without a subsidy and otherwise so, the validator reads out of range |
| `LotteryProducer.DrawnDecides` | src/lottery.cpp:1528-1544 | when no winner's own script is a commitment, the verdict on the coinbase is that on the set it was drawn from, so otherwise it is rejected |
| `LotteryProducer.NoSubsidyInstance` | src/lottery.cpp:1524-1533 | a registry of one node and a block without subsidy: the producer's coinbase makes the validator read out of range |
| `LotteryProducer.BuildPayments` | src/lottery.cpp:1524-1536 | one payment for each winner, to its script or the producer, with the fees on the first |
| `LotteryProducer.BuildCommitments` | src/lottery.cpp:1538-1544 | the set commitment and, where required, stamps and seed signature |
| `LotteryProducer.ApplyCoinbasePayouts` | src/lottery.cpp:1502-1546 | builds exactly the specified outputs from the registry after the local heartbeat, and keeps the registry consistent |
| `Chain.GetSkipHeight` | src/chain.cpp:71-82 | a skip height is below the height |
| `Chain.SkipOnes` | src/chain.cpp:71-82 | a skip clears one bit of an even height, two of an odd one |
| `Chain.SkipsAreFew` | src/chain.cpp:71-82 | skips alone lead to genesis in at most as many steps as the height has one bits |
| `Chain.InvertLowestOneBits` | src/chain.cpp:71-71 | on 32-bit words the recursive definition is `x & (x - 1)` |
| `Chain.BlockIndex.GetAncestor` | src/chain.cpp:84-108 | following skip pointers gives the plain parent walk, null outside the range |
| `Chain.BlockIndex.BuildSkip` | src/chain.cpp:115-119 | sets the pointer to the ancestor at the skip height and keeps all pointers correct |
| `Chain.ActiveChain.SetTip` | src/chain.cpp:12-22 | the vector becomes exactly the tip's ancestor path, despite stopping at the first block in place |
| `Chain.InIff` | src/chain.h:497-499 | a block is in the chain if and only if it is an ancestor of the tip |
| `Chain.ActiveChain.FindFork` | src/chain.cpp:52-61 | the highest block of the chain on the way to genesis, or none |
| `Chain.ForkIsUnique` | src/chain.cpp:52-61 | there is only one such block |
| `Chain.LastCommonAncestor` | src/chain.cpp:158-173 | the highest common block, none without a common genesis; the final assert always holds |
| `ChainForks.AddBlock` | src/validation.cpp:3845-3852 | adding a block and building its pointer keeps every pointer of the tree correct |
| `ChainForks.ForkAndAncestor` | src/chain.cpp:52-61 | the fork with the active chain is the last common ancestor with its tip |
| `ChainForks.LocatorFalls` | src/chain.cpp:24-50 | locator heights fall strictly to genesis |
| `ChainForks.LocatorSize` | src/chain.cpp:24-50 | at most `j + 12` entries for heights up to 2^j |
| `ChainForks.LocatorFits` | src/net.h:55-55 | locators for heights up to 2^30 fit the protocol limit |
| `ChainForks.LocatorIsClose` | src/chain.cpp:24-50 | below every height of the chain a locator has one at most twice as far from the tip, and the height itself within eleven blocks |
| `ChainForks.LocatorOf` | src/chain.cpp:24-50 | the locator lists the hashes of the ancestors at the locator heights |
| `ChainForks.GetLocator` | src/chain.cpp:24-50 | the loop over chain vector and skip pointers computes that locator, for the tip by default |
| `ChainForks.ChoiceIgnoresOrder` | src/chain.cpp:129-137 | the preferred tip among candidates with distinct hashes does not depend on their arrival order |
| `ChainForks.BestTipWins` | src/chain.cpp:129-137 | the tip after any arrivals is one of them or the incumbent, none has more work, and none of equal work a smaller hash |
| `ChainForks.WorkIsHeight` | src/validation.cpp:3852-3852 | where the work of blocks adds up, it is the height and one |
| `ChainForks.HighestWins` | src/chain.cpp:121-137 | the tip chosen is one of the highest blocks, with the smallest hash among those |
| `Arith.AddAssign` | src/arith_uint256.h:142-152 | addition modulo the width, for any number of limbs, also of a number to itself |
| `Arith.Increment` | src/arith_uint256.h:180-187 | increment modulo the width |
| `Arith.Negated` | src/arith_uint256.h:84-91 | negation modulo the width |
| `Arith.SubAssign` | src/arith_uint256.h:154-158 | subtraction modulo the width, also of a number from itself |
| `Arith.CompareTo` | src/arith_uint256.cpp:112-122 | the sign of the difference of the values |
| `Arith.MulAssign` | src/arith_uint256.cpp:70-84 | multiplication modulo the width by another number; by itself a number becomes 0, so the product is right if and only if the operand is another object or the square is 0 modulo the width |
| `Arith.SquareOfTwo` | src/arith_uint256.cpp:70-84 | squaring 2 in place leaves 0 |
| `ArithShift.ShlAssign` | src/arith_uint256.cpp:24-39 | multiplication by a power of two modulo the width |
| `ArithShift.ShrAssign` | src/arith_uint256.cpp:41-56 | the floor of division by a power of two |
| `ArithShift.Bits` | src/arith_uint256.cpp:174-187 | the number of bits of the value |
| `ArithDiv.SetBit` | src/arith_uint256.cpp:103-103 | setting a bit below the lowest one set adds its power of two |
| `ArithDiv.DivAssign` | src/arith_uint256.cpp:86-110 | the floor of the quotient, also by itself; an error exactly for a zero divisor |
| `Compact.BitsUnique` | src/arith_uint256.cpp:174-187 | the number of bits is unique |
| `Compact.GetCompactIs` | src/arith_uint256.cpp:227-248 | the compact form is size, sign and mantissa side by side with the mantissa below the sign bit; zero has no sign |
| `Compact.CompactRoundTrip` | src/arith_uint256.cpp:207-248 | decoding gives the number with trailing bytes cleared, never above it, its sign unless it is zero, and no overflow |
| `Compact.CompactMonotone` | src/arith_uint256.cpp:227-248 | among numbers of one sign the compact form is monotone in the magnitude |
| `Compact.CompactIdempotent` | src/arith_uint256.cpp:207-248 | encoding what was decoded, with its sign, gives the same compact form |
| `Compact.OverflowIff` | src/arith_uint256.cpp:207-225 | for every word the overflow flag is set if and only if the number it stands for does not fit 256 bits |
| `CuckooCache.FlagBytes` | src/cuckoocache.h:61-68 | the bytes, computed in 32 bits, are enough for the flags if and only if there are fewer than 0xfffffff9; from there on there are none |
| `CuckooCache.SlotIff` | src/cuckoocache.h:242-252 | each slot is selected by an interval of hashes |
| `CuckooCache.SlotsAreFair` | src/cuckoocache.h:206-240 | every slot has its share of the 2^32 hashes, to within one |
| `CuckooCache.NowhereElse` | src/cuckoocache.h:467-477 | an element at none of its eight slots is nowhere |
| `CuckooCache.BitPackedFlags.BitSet` | src/cuckoocache.h:92-95 | sets exactly one flag of the packed bytes |
| `CuckooCache.BitPackedFlags.BitUnset` | src/cuckoocache.h:103-106 | clears exactly one flag of the packed bytes |
| `CuckooCache.Cache.constructor` | src/cuckoocache.h:340-353 | at least two slots, all discardable, nothing live, the first count after a whole epoch |
| `CuckooCache.EpochSize` | src/cuckoocache.h:349-349 | in 32 bits the size of an epoch is 45% of the slots if and only if there are fewer than 95443718 |
| `CuckooCache.Cache.EpochCheck` | src/cuckoocache.h:289-321 | ages the epochs exactly when due: then exactly the live elements of the current epoch stay live and become the old epoch; otherwise only the counter changes |
| `CuckooCache.NextLoc` | src/cuckoocache.h:430-430 | the slot after the last one swapped, the second one at first |
| `CuckooCache.Cache.InsertNow` | src/cuckoocache.h:395-439 | every element stays at one of its slots, once; the live elements and the new one all stay but for one at most, and all of them when one of the slots is free; of everything stored, discardable or not, at most one element goes |
| `CuckooCache.Cache.Insert` | src/cuckoocache.h:392-440 | the same after the epoch check, from the live elements it leaves; of everything stored at most one element goes |
| `CuckooCache.Cache.Contains` | src/cuckoocache.h:467-477 | true if and only if the element is stored, live or discardable; with erase exactly that element stops being live and stays stored |
| `RollingBloom.WipeBit` | src/bloom.cpp:257-266 | the two-plane mask clears exactly the positions labelled with one generation |
| `RollingBloom.WriteBit` | src/bloom.cpp:274-275 | writing a label changes one bit of a word only |
| `RollingBloom.RollingBloomFilter.constructor` | src/bloom.cpp:217-242 | an empty filter for half as many entries per generation, rounded up; usable if and only if it is for some elements and has words |
| `RollingBloom.RollingBloomFilter.Wipe` | src/bloom.cpp:259-265 | the loop clears one generation everywhere |
| `RollingBloom.RollingBloomFilter.Roll` | src/bloom.cpp:251-266 | the positions of the generation number about to be reused are wiped, no key of the last two and the new generation loses a position, and every position set is one of theirs |
| `RollingBloom.RollingBloomFilter.Mark` | src/bloom.cpp:269-276 | the two bits of the generation are written into the two words of each hash, at its low six bits, and no other bit changes; so exactly the positions of the key carry the current generation |
| `RollingBloom.RollingBloomFilter.Insert` | src/bloom.cpp:249-277 | the history grows by the key, and exactly the keys of the last three generations account for the positions set |
| `RollingBloom.RollingBloomFilter.Contains` | src/bloom.cpp:285-297 | true exactly when for every hash its low-six bit is set in one of its two words, which is when every position of the key is one of a key of the last three generations; so always for the last `2 * ceil(nElements / 2)` keys |
| `RollingBloom.RollingBloomFilter.Reset` | src/bloom.cpp:305-313 | forgets every key |
| `Base58.DecodeEncoded` | src/base58.cpp:22-110 | decoding inverts encoding on all byte strings |
| `Base58.EncodeDecoded` | src/base58.cpp:22-110 | encoding inverts decoding on all strings of the alphabet |
| `Base58Buffer.Convert` | src/base58.cpp:84-102 | the buffer holds the digits of the same number in the other base, without leading zeros |
| `Base58Buffer.MulAdd` | src/base58.cpp:87-96 | the shortened carry loop computes the full step and nothing is left to carry when the result fits |
| `Base58Buffer.EncodeSize` | src/base58.cpp:82-82 | the 138/100 buffer always suffices |
| `Base58Buffer.DecodeSize` | src/base58.cpp:35-35 | the 733/1000 buffer always suffices |
| `Base58Buffer.EncodeBase58` | src/base58.cpp:72-110 | the conversion in the buffer gives the specified text |
| `Base58Buffer.DecodeBase58` | src/base58.cpp:22-70 | the conversion in the buffer gives the specified bytes, failing on exactly the other texts |
| `Base58Buffer.CheckedIff` | src/base58.cpp:131-146 | checked decoding accepts exactly the texts of a payload followed by its checksum |
| `Base58Buffer.CheckRoundTrip` | src/base58.cpp:122-146 | checked decoding inverts checked encoding |
| `BoolFormula.PartsShorter` | src/LibBoolEE.cpp:74-146 | each of several subexpressions is shorter than the formula, so evaluation terminates on every text |
| `BoolFormulaProof.ParseJoined` | src/LibBoolEE.cpp:19-68 | texts without the operator at top level, joined by it, are split into exactly those texts |
| `BoolFormulaProof.ParsePrinted` | src/LibBoolEE.cpp:19-68 | a printed formula is split into its disjuncts, or below them into its conjuncts |
| `BoolFormulaProof.ResolvePrinted` | src/LibBoolEE.cpp:74-146 | evaluating the text of a formula gives its truth value |
| `BoolFormulaProof.ResolveIsTruth` | src/LibBoolEE.cpp:70-72 | the same for any white space in the text |
| `BoolFormulaProof.ResolveJunk` | src/LibBoolEE.cpp:33-38 | characters in front of a formula that begin no subexpression are passed over if and only if it has a binary operator at top level; otherwise the text is looked up as a variable |
| `BoolFormulaProof.ResolveJunkDisjuncts` | src/LibBoolEE.cpp:33-38 | junk in front of the first disjunct is passed over, and ampersands in front of a later one if and only if it is a conjunction or the text is a variable; the value is then the formula's |
| `BoolFormulaProof.SingleParse` | src/LibBoolEE.cpp:19-68 | the scan by positions splits as the specification says, with its errors |
| `BoolFormulaProof.StripWhitespaces` | src/LibBoolEE.cpp:158-166 | removes exactly the white space |

## Left out

- `CAddrMan::Select_` and `GetChance`: probabilistic selection in floating point.
- Loading arbitrary corrupt `peers.dat` files: the model reads every token stream, but only what a consistent manager wrote is shown to load consistently.
- GoodKeeps: times are positive, and those of attempts non-negative, as clock readings are; the consistency check itself rejects other times.
- Asset, messaging and restricted-asset branches of `AddCoins` and of the coin caches: they depend on asset code; unspendable scripts are a flag of `AddCoin`.
- Coin caches form one stack; two caches over the same base are not modelled, and neither is the database class with its own assertions. Script memory is counted by size, not by capacity.
- ComputeMerkleRoot: at most 2^31 leaves; beyond, the 32-bit counter of the sweep wraps. Branches of the tree are not part of it.
- BlockPays: needs a pool without priorities whose weights are four times the sizes; elsewhere the totals a package goes in by may be off (`FeesDependOnOrder`, `FittingIsLeftOut`).
- SizeIsLimited: says nothing of registries that are over the limit already.
- Integers of the Merkle tree, of heights, of fees and of times are unbounded; limbs, bytes, flags, push sizes and hash words have their widths.
- The memory pool is a finite set of transactions with transitive ancestors and exact cached totals, given in the order of scores; scores are compared by exact products, where the code rounds them to floating point. How near the fees come to the best possible block is not part of it.
- AddPackageTxs: that everything left out does not fit is false of the code (`FittingIsLeftOut`), so hopeless counts included ancestors by size; when it gives up after many failures, nothing is said about the transactions not looked at.
- HopelessDoesNotFit: the condition on weights is sufficient, not necessary; whether a failed package gets another entry depends on the run.
- The quit flag of the check queue, which the code never sets, and checks added by anyone but the master.
- Wallet access, X lookup, session and key files, the allowlist's file, handle normalization and the producer thread of the lottery: foreign calls, threads and files.
- CheckLotteryCoinbase: heights below 1 and a missing coinbase are decided before it, and remembering the stamps of an accepted block is not part of it.
- `GetBlockSubsidy` and the total supply; `DarkGravityWave`; compact block reconstruction; `CompressAmount`.
- `CBlockIndex` validity flags, `FindEarliestAtLeast`, and proof-equivalent times.
- Bitwise operators, hexadecimal text and conversion to floating point of fixed-width integers; the compact form is modelled on values.
- The cuckoo cache's depth limit as a logarithm and concurrent erasing; flags are a list of Booleans in the cache, and their packing into bytes is a class of its own.
- The Bloom filter's size and number of hashes as functions of the false-positive rate, and the plain Bloom filter; the operations of a filter for no elements, which has no words.
- C strings with embedded zero bytes in Base58, and the address classes on top of it.
- What the formula evaluator does with other texts that are not formulas, beyond terminating: other characters before a later disjunct, and parentheses that close before they open.
- SHA-256, MurmurHash3, SipHash and secp256k1 themselves.
