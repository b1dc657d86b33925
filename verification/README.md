# Verified models of the MVC node's algorithmic cores

This project models, in Dafny, the parts of the MVC (Bitcoin family) node that hold together by an invariant rather
than by inspection, and proves those invariants for all inputs and all interleavings.

| module | what it models | main results |
|---|---|---|
| CheckQueue, CheckQueueRuns, CheckQueuePool | the parallel script-check queue and the pool that lends queues out | `RunVerdict`, `AnswerHasRun`, `RunSafe`, `Progress`, `WaitTerminates`, `PoolAnswers`, `PreemptedAnswersEmpty` |
| AddrMan, AddrManSteps, AddrManEffects, AddrManLaws, AddrManager, AddrManStore, AddrManLoad | the address manager, its self-check, its file format | `RunSound`, `StepChecksIff`, `AddUpdates`, `AddStores`, `GoodMoves`, `SaveAndLoad`, `LoadAny` |
| PartialMerkleTree, PrunedTree, MerkleTree | BIP 37 partial Merkle trees; the incremental and batched Merkle tree | `Relay`, `Soundness`, `AcceptsExactly`, `ParallelRoot` |
| CoinsCache | the stack of UTXO caches over the coin database | `RunRefines`, `AddKeepsIff`, `CoinsStore.BatchWrite` |
| ArithUint256, ArithDivision, Compact | limb arithmetic, compact targets, block work | `MulBig`, `Divide`, `NoCloser`, `Idempotent`, `BlockProof` |
| BlockTree, SkipSteps, Chain, Descendants, Freeze | skip lists, the active chain, descendant walks, soft freezes | `Block.GetAncestor`, `SimulationRight`, `BlockChain.SetTip`, `VisitedExactly`, `FreezeIndex.SoftFreeze` |
| CuckooCache, RollingBloom | the signature cache and the rolling Bloom filter | `Cache.Insert`, `LifeOf`, `Filter.Contains` |
| Base58 | the Base58 codec | `DecodeEncode`, `EncodeDecode`, `DecodesIff`, `EncodeFits`, `DecodeFits` |
| MempoolBatch | the coalescing batch in front of the mempool database | `RunRefines`, `NothingLost`, `PromisesNeeded`, `XrefMeans`, `AsyncTxDb.Work` |

`Common`, `Powers` and `ByteBits` hold shared definitions. `dafny verify dfyconfig.toml` checks the whole project.

How the code is represented:

- Concurrent code is a step machine. Each stretch of code under a mutex is a step, cut further where the cancellation
  token is read, because that can flip at any moment. Between two steps any other thread may move.
- Objects that change in place are classes with the source's fields. Their methods are proved against functions on a
  snapshot of those fields, and the invariants are proved about the functions.
- Hash functions are arbitrary functions given as parameters. Where a result needs more it says so: injectivity for
  the soundness of partial Merkle trees, never null for `CMerkleTree`, whose code uses the null hash for "no node".
  Random numbers, clocks and the outcome of database writes are parameters too.
- Fixed-width integers are modelled where the width matters: limbs and their 64-bit accumulators, the 32-bit compact
  format, the wrapping 64-bit counters of the mempool database, and the 32-bit sum in the freeze code.

Where the code and its comments or callers' expectations part, the model follows the code:

- A comment calls the check queue a stack; `Loop` takes its batches from the front: `Queue.TakeWork`.
- The comment in the cuckoo cache's `insert` says that the chain starts at the first place. It starts at the second:
  `NextPlaceMoves`.
- `operator*=` clears its object before reading the other factor, so squaring in place gives zero: `MulBig`.
- `softConsensusFreeze` bounds its walk by the duration alone when height + duration does not fit into 32 bits.
  `FreezeIndex.SoftFreeze` says exactly for which blocks the result is then wrong; `NoneMissed` when there are none.
  This concerns only chains beyond 2^30 blocks: `MissedOnlyHigh`, `MissedChild`.
- `Good_` accepts any time; `Check_` does not accept every time. `GoodChecksIff` says which.
- `CCoinsViewCache::SpendCoin` returns true for a coin that its cache already holds as spent: `ViewCache.SpendCoin`.
- `CCoinsViewCache::AddCoin` without overwrite trusts its caller to have looked the coin up. `AddKeepsIff` gives the exact
  condition, `BlindAddResurrects` what happens otherwise.
- The mempool worker empties its batch even if the commit failed: `AsyncTxDb.CommitAndClear`. `PromisesNeeded` says
  exactly what the batch needs of its callers.

## Model

| member | source | states |
|---|---|---|
| CheckQueue.BatchCount | src/checkqueue.h:229-239 | a thread takes at least one check, never more than are queued, and except for that minimum never more than `nBatchSize` or its fair share, and not less than the smaller of the two |
| CheckQueue.CountersKept | src/checkqueue.h:142-261 | every step of every thread keeps `nTodo` = queued checks + checks in batches (so it never underflows), `nIdle` = threads asleep, `nTotal` = threads inside `Loop` |
| CheckQueue.MasterKept | src/checkqueue.h:178-216 | every step keeps what the master relies on: it sleeps only on an empty queue, it is notified exactly when nothing is left to do, and after it returned nothing is left to do |
| CheckQueue.ConservedKept | src/checkqueue.h:142-261 | no step loses or duplicates a check: each added occurrence is in exactly one of queue, unfinished batch part, results, or checks given up |
| CheckQueue.VerdictExact | src/checkqueue.h:199-216 | when the master returns, in terms of what is logged beside the state: empty if and only if canceled or a check was undecided, false if and only if neither and a check failed, true if and only if nobody canceled and the checks that passed are exactly the checks added |
| CheckQueue.VerdictKept | src/checkqueue.h:154-259 | every step keeps: a false or empty verdict, of a batch or of the session, has a reason; work is only given up with a reason; while all verdicts are true nothing has failed |
| CheckQueue.AnswerKept | src/checkqueue.h:142-261 | once given, the answer of `Wait` keeps its meaning until the next session, whatever the workers do |
| CheckQueue.StepKeepsInv | src/checkqueue.h:142-261 | the whole invariant is inductive over every label: calls, first locks, wake-ups (spurious ones included), executed checks, clean-ups, returns, cancellation at any moment, `Add`, session starts |
| CheckQueue.FreshInv | src/checkqueue.h:272-301 | a constructed queue with any number of workers satisfies the invariant |
| CheckQueue.RunSafe | src/checkqueue.h:142-420 | every state of every interleaving, with any number of workers and sessions, satisfies the invariant |
| CheckQueue.RunAnswers | src/checkqueue.h:341-360 | in every reachable state an answer of `Wait` is the one that the log of its session calls for, and nothing is left to do; `CheckQueueRuns.RunVerdict` says the same of the labels of the run |
| CheckQueue.MasterNeverStranded | src/checkqueue.h:178-227 | a master that sleeps un-notified always has another thread at work on a batch, so no notification is missed |
| CheckQueue.IdleAfterWait | src/checkqueue.h:394-420 | after `Wait` has returned `IsIdle()` holds, so the next session can be started |
| CheckQueue.Progress | src/checkqueue.h:142-261 | while the master is in `Loop` some thread can take a productive step: no deadlock |
| CheckQueue.ProductiveShortens | src/checkqueue.h:142-261 | each productive step uses up a bound that depends on the queue, the batches and where the threads stand |
| CheckQueue.OthersLengthen | src/checkqueue.h:142-261 | every other step taken while the master is in `Loop` is a cancellation, which costs nothing, or a wake-up, which adds at most one to that bound |
| CheckQueue.WaitTerminates | src/checkqueue.h:350-360 | hence in every schedule a `Wait` in progress takes at most the bound plus one productive step per wake-up of a worker or of an un-notified master |
| CheckQueue.Queue.constructor | src/checkqueue.h:269-301 | the object starts as the step machine's initial state |
| CheckQueue.Queue.AddChecks | src/checkqueue.h:370-392 | `Add` throws exactly without a session or after `Wait`; otherwise the checks are appended, `nTodo` grows by their number, it is the machine's step, and the invariant is kept |
| CheckQueue.Queue.StartCheckingSession | src/checkqueue.h:408-420 | it throws exactly while `Wait` has not been called for the open session, and the `IsIdle` half of its test can never be the reason; otherwise there is a session with the caller's token, canceled exactly if that was, no failure on record and `Wait` not yet called |
| CheckQueue.Queue.MergeBatch | src/checkqueue.h:157-168 | merging a batch verdict and uncounting its checks is the machine's step |
| CheckQueue.Queue.CleanUp | src/checkqueue.h:157-184 | the locked clean-up after a batch, with draining and notification, is the machine's step |
| CheckQueue.Queue.TakeWork | src/checkqueue.h:192-244 | the locked code from the emptiness test on (return, sleep or take a batch from the front) is the machine's step |
| CheckQueueRuns.TokenTold | src/checkqueue.h:408-420 | in every run a session is canceled if and only if it was opened with a canceled token or the token was canceled since |
| CheckQueueRuns.AddedTold | src/checkqueue.h:370-392 | what the log calls added is what the calls of `Add` since the session was opened have brought |
| CheckQueueRuns.ResultsTold | src/checkqueue.h:247-258 | what it calls passed, failed or undecided is how the checks executed since then came out |
| CheckQueueRuns.VerdictRests | src/checkqueue.h:199-216 | between the master's test and the end of `Loop` its verdict rests and no session is opened |
| CheckQueueRuns.AnswerRests | src/checkqueue.h:350-360 | an answer stays until the next one or the next session |
| CheckQueueRuns.RunVerdict | src/checkqueue.h:142-420 | in every interleaving of any number of workers and sessions the answer of `Wait` is: empty if and only if the token was canceled before the master's test or a check came out undecided, false if and only if neither and a check failed, true if and only if neither and the checks that passed are those added, each as often as it was added |
| CheckQueueRuns.AnswerHasRun | src/checkqueue.h:350-360 | every answer in every run has such a session, such a test and such an end of `Loop`, so the law is about all answers |
| CheckQueueRuns.TakenInOrder | src/checkqueue.h:240-242 | first come, first served: what threads have taken since the session was opened, or drained after a cancellation, then what is still queued, is what was added, in that order |
| CheckQueueRuns.NoWorkAfterVerdict | src/checkqueue.h:243-251 | once a verdict other than true is merged nobody executes a check of a batch taken afterwards |
| CheckQueueRuns.FinishGivesUp | src/checkqueue.h:170-184 | after a batch the queue is drained if and only if the session is canceled; what was not executed is logged as given up; a waiting master is notified if nothing is left to do |
| CheckQueuePool.FindWorst | src/checkqueuepool.h:253-265 | the loop finds the first checker that is minimal by value and then start time |
| CheckQueuePool.WorstIsLowest | src/checkqueuepool.h:253-265 | that checker has the smallest value and, of those with that value, the earliest start |
| CheckQueuePool.RequestExact | src/checkqueuepool.h:248-273 | a request cancels the token of the lowest running checker if no queue is idle and its value is strictly below the requested one, and otherwise changes nothing; the other checkers and queues are as they were |
| CheckQueuePool.AtRestIsIdle | src/checkqueuepool.h:309 | a queue whose master has returned is idle and accepts a new session, so the assertion on return cannot fire |
| CheckQueuePool.LentOrIdle | src/checkqueuepool.h:277-284 | a registered queue is idle or lent, never both |
| CheckQueuePool.SomebodyRuns | src/checkqueuepool.h:248-251 | no idle queue means that one is lent: the assertion in `GetChecker` cannot fire |
| CheckQueuePool.StepKeepsInv | src/checkqueuepool.h:241-329 | every step of the pool, and every step of any queue in it, keeps: each queue is registered exactly once, each queue keeps its own invariant, idle queues have no open session |
| CheckQueuePool.RequestKeepsInv | src/checkqueuepool.h:248-273 | pre-empting a running checker keeps the same |
| CheckQueuePool.FreshInv | src/checkqueuepool.h:176-200 | a constructed pool of any positive size satisfies it |
| CheckQueuePool.RunSafe | src/checkqueuepool.h:241-329 | over every interleaving of requests, queue steps and returns the registration stays exact |
| CheckQueuePool.QueueRun | src/checkqueuepool.h:241-329 | in every run of the pool each queue goes through a run of its own machine, a pre-emption being a cancellation there and lending a session start |
| CheckQueuePool.PoolAnswers | src/checkqueuepool.h:241-329 | so every answer given in a run of the pool is the right one for what happened to its queue in that session, pre-emptions included |
| CheckQueuePool.DoomedStays | src/checkqueue.h:199-216 | a canceled session whose answer is still open answers empty, whatever its threads do |
| CheckQueuePool.PreemptedAnswersEmpty | src/checkqueuepool.h:248-273 | a checker pre-empted before its master's last test stays lent until it is returned, is only returned with an answer, and that answer is the empty one whatever its checks say |
| CheckQueuePool.CheckerPool.constructor | src/checkqueuepool.h:176-200 | the object starts as the machine's initial state |
| CheckQueuePool.CheckerPool.MakeRoom | src/checkqueuepool.h:246-273 | with no idle queue, the checker minimal by value and start time has its token canceled, and so has its session, if and only if its value is strictly below the requester's; every other checker and queue, and the whole pool if there is no such checker, stays as it is |
| CheckQueuePool.CheckerPool.Lend | src/checkqueuepool.h:275-301 | the front idle queue is lent with the requester's value and a token that is not canceled, other queues stay as they are, and opening its session cannot throw |
| CheckQueuePool.CheckerPool.ReturnQueueToPool | src/checkqueuepool.h:304-329 | the queue goes to the end of the idle ones, exactly its own entry leaves the running list, no queue changes; both assertions hold |
| PartialMerkleTree.WidthClosedForm | src/merkleblock.h:75-77 | the shift formula is the number of nodes of a level that halves, rounding up, from the leaves |
| PartialMerkleTree.RangeClosedForm | src/merkleblock.cpp:127-130 | the scan bounds of a node are exactly its leaves |
| PartialMerkleTree.ComputeHeight | src/merkleblock.cpp:201-205 | the loop finds the first level with one node |
| PartialMerkleTree.LevelDistinct | src/merkleblock.cpp:101-120 | with distinct ids and an injective hash all nodes of a level are distinct |
| PartialMerkleTree.BuildSize | src/merkleblock.h:37-56 | both documented bounds: the hashes stored are at most the transactions and at most 1 + matches * height, and there is at least one bit per hash |
| PartialMerkleTree.ExtractBuilt | src/merkleblock.cpp:122-192 | at every node, reading what was built gives the node's hash, its matched ids and positions in order, uses exactly its part of the encoding, and complains if and only if twin siblings were met |
| PartialMerkleTree.RoundTrip | src/merkleblock.cpp:194-264 | for every list of ids, every match mask and every hash function, extraction of the encoding with its bits padded to bytes gives the matched ids and their positions in order, and the root if and only if the traversal meets no two equal siblings |
| PartialMerkleTree.DistinctNoTwins | src/merkleblock.cpp:174-184 | with distinct ids and an injective hash the refusal of equal siblings never hits an honest encoding |
| PartialMerkleTree.IndexesKept | src/merkleblock.cpp:213-215 | indexes left over from an earlier extraction change nothing else |
| PartialMerkleTree.BadSticks | src/merkleblock.cpp:146-192 | once a traversal has complained it stays bad |
| PartialMerkleTree.ExtractSound | src/merkleblock.cpp:146-192 | for arbitrary bits and hashes, a traversal that yields a node's true hash recorded only true leaves |
| PartialMerkleTree.Soundness | src/merkleblock.cpp:213-264 | for arbitrary bits and hashes with the block's transaction count: if the extracted root is the block's, every extracted (position, id) is the real leaf at that position |
| PartialMerkleTree.Pack | src/merkleblock.h:121-127 | bits go into bytes lowest first and the padding is clear |
| PartialMerkleTree.Unpack | src/merkleblock.h:113-120 | each bit read is the one in its byte |
| PartialMerkleTree.PackingPads | src/merkleblock.h:109-128 | packing and unpacking gives the bits back with fewer than eight added |
| PartialMerkleTree.ScanMatch | src/merkleblock.cpp:125-130 | the loop says whether any leaf under the node matches |
| PartialMerkleTree.HasRightChild | src/merkleblock.cpp:101-120 | the width test says whether the right child exists |
| PartialMerkleTree.PartialTree.constructor | src/merkleblock.cpp:194-209 | the object holds the encoding of the matches |
| PartialMerkleTree.PartialTree.TraverseAndBuild | src/merkleblock.cpp:122-144 | appends the encoding of the node to the two vectors |
| PartialMerkleTree.PartialTree.TraverseAndExtract | src/merkleblock.cpp:146-192 | the in-place traversal is the functional one, with its counters and `fBad` |
| PartialMerkleTree.PartialTree.Matches | src/merkleblock.cpp:213-264 | the in-place `ExtractMatches` is the function that `PrunedTree.AcceptsExactly` is about; indexes already in `vnIndex`, which the source does not clear, stay in front; a tree marked bad gives the null root |
| PartialMerkleTree.Relay | src/merkleblock.cpp:194-264 | build, serialize, read back, extract: the receiver gets exactly the matched transactions and, for distinct ids and an injective hash, the root |
| PrunedTree.ReadsListing | src/merkleblock.cpp:146-192 | where bits and hashes hold the depth-first listing of a pruned tree, the traversal uses exactly that listing and gives the tree's root, its marked leaves and their positions, and complains if and only if the tree has equal siblings |
| PrunedTree.Parsed | src/merkleblock.cpp:146-192 | conversely, whatever a traversal without complaint has used up is the listing of some pruned tree of that shape |
| PrunedTree.ListingSize | src/merkleblock.cpp:225-234 | a pruned tree never has more hashes than leaves or than bits, so those two refusals hit no listing |
| PrunedTree.ListingAccepted | src/merkleblock.cpp:213-264 | the listing of a tree without equal siblings, padded to whole bytes, is accepted with its root and its marked leaves in order |
| PrunedTree.AcceptedListing | src/merkleblock.cpp:213-264 | whatever gets another root than the null one is such a listing: all its hashes are used and all its bits up to the padding |
| PrunedTree.AcceptsExactly | src/merkleblock.cpp:213-264 | for arbitrary bits, hashes and transaction counts: the outcome is the root and the marked leaves of the pruned tree that the input lists without equal siblings, and the null root if there is no such tree |
| PrunedTree.RefusedAtOnce | src/merkleblock.cpp:217-234 | a count of zero, more hashes than transactions or fewer bits than hashes is refused before the traversal, and no tree lists so |
| MerkleTree.LevelSize | src/merkletree.cpp:135-173 | level k has n / 2^k nodes, rounded down |
| MerkleTree.AddIsAppend | src/merkletree.cpp:135-173 | adding a leaf to the levels of a list gives the levels of the longer list |
| MerkleTree.MergeIsConcat | src/merkletree.cpp:192-220 | merging a subtree into an aligned tree gives the levels of the concatenated lists |
| MerkleTree.BatchFits | src/merkletree.cpp:60-123 | every batch of at most 2^p leaves behind whole batches is low enough and aligned |
| MerkleTree.ClimbStep | src/merkletree.cpp:222-248 | one `CalculateMissingParentNode` climbs one level of the tree that duplicates the last node of odd levels |
| MerkleTree.ClimbIsRoot | src/merkletree.cpp:222-269 | the pass over the stored levels ends in the recursive Merkle root |
| MerkleTree.RootsAgree | src/merkletree.cpp:250-269 | that root is the one `CPartialMerkleTree` computes top down |
| MerkleTree.MergeShape | src/merkletree.cpp:192-214 | what `MergeSubTree` does level by level: concatenation below the subtree's top, then one added node |
| MerkleTree.BuildLevels | src/merkletree.cpp:43-58 | a batch task yields the levels of its transactions |
| MerkleTree.Tree.AddNodeAtLevel | src/merkletree.cpp:135-173 | on any level, exactly the addition that `AddIsAppend` is about; lower levels are untouched |
| MerkleTree.Tree.AddAll | src/merkletree.cpp:125-133 | adding ids one by one gives the levels of the list |
| MerkleTree.Tree.MergeSubTree | src/merkletree.cpp:192-220 | refuses exactly a subtree that is higher than the tree, and otherwise merges |
| MerkleTree.Tree.GetMerkleRoot | src/merkletree.cpp:250-269 | for the levels of any list, including none, the result is the recursive root |
| MerkleTree.PowerOfTwoBatch | src/merkletree.cpp:65-81 | the batch size is the first 4096 * 2^i with which the threads cover all transactions |
| MerkleTree.MergeBatch | src/merkletree.cpp:115-122 | a batch behind whole batches is never refused, and merging it extends the tree by exactly its transactions |
| MerkleTree.MergeOne | src/merkletree.cpp:116-122 | the merge of a batch in place is not refused and extends the tree by exactly that batch |
| MerkleTree.MergeAll | src/merkletree.cpp:115-122 | merging the batches in order gives the tree of all transactions |
| MerkleTree.BatchTasks | src/merkletree.cpp:83-105 | the futures are the subtrees of consecutive batches that cover the rest |
| MerkleTree.CalculateMerkleTree | src/merkletree.cpp:60-123 | for every list and every number of threads the batched computation gives the levels of the sequential one |
| MerkleTree.ParallelRoot | src/merkletree.cpp:60-123 | so the root does not depend on the number of threads, and is the recursive one |
| CoinsCache.FetchKeeps | src/coins.cpp:235-254 | caching a coin from below changes nothing that is shown and keeps the flags honest |
| CoinsCache.AddKeepsIff | src/coins.cpp:256-285 | adding shows the new coin; it keeps FRESH honest if and only if the caller allowed an overwrite, had looked the coin up, or the parent has no such coin |
| CoinsCache.BlindAddResurrects | src/coins.h:521-528 | why the caller must look first: add blindly, spend, and the parent's coin is shown again |
| CoinsCache.AddThrowsShown | src/coins.cpp:256-285 | after a lookup, adding without overwrite throws if and only if the stack shows the coin |
| CoinsCache.SpendKeeps | src/coins.cpp:305-319 | spending hides exactly that coin and keeps the flags honest, also where the entry is dropped because it is FRESH |
| CoinsCache.AddedAndSpent | src/coins.cpp:256-319 | a coin that is created and spent before a flush leaves no trace in the cache |
| CoinsCache.FlushedAndSpent | src/coins.cpp:351-394 | nor does it leave one in the parent if the cache was flushed in between |
| CoinsCache.UncacheKeeps | src/coins.cpp:341-349 | exactly an entry without flags is dropped, the others stay, and nothing that is shown changes |
| CoinsCache.MergeNeverThrows | src/coins.cpp:366-376 | a child with honest flags cannot trigger the "FRESH flag misapplied" exception |
| CoinsCache.MergeRefines | src/coins.cpp:351-394 | `BatchWrite` leaves the parent showing exactly what the child showed, with honest flags of its own |
| CoinsCache.BaseGetAnswers | src/txdb.cpp:487-612 | a lookup in the database cache answers for the coin that is shown, with the script where it was asked for, and changes nothing that is shown |
| CoinsCache.BaseGetCaches | src/txdb.cpp:487-612 | exactly when the answer has the script, exactly when the cache holds it afterwards (it was there, or the lookup loads it and there is room), that a cached coin is not touched unless its script is asked for, and that the answer borrows from the cache exactly what the cache holds |
| CoinsCache.SpanGetAnswers | src/coins.cpp:26-77 | the same through two layers |
| CoinsCache.SpanGetCaches | src/coins.cpp:26-77 | it leaves at most one new entry, clean and not FRESH, which never owns a script: it has one exactly if the cache below holds it, and takes no script memory |
| CoinsCache.WriteRefines | src/txdb.cpp:195-261 | writing the cache out leaves the database holding what the cache showed, and every coin written has its script |
| CoinsCache.StepRefines | src/coins.cpp:26-136 | each operation on the stack of caches is the same operation on plain maps, layer by layer |
| CoinsCache.RunRefines | src/coins.cpp:26-394 | over every sequence of lookups, adds, spends, uncaches, flushes and discards, from any database, every layer shows exactly the coins of a plain map with the same updates, and FRESH implies that the parent shows no coin |
| CoinsCache.UsagePut | src/coins.cpp:321-327 | replacing an entry changes the total memory by the difference of the two |
| CoinsCache.CoinsStore.constructor | src/coins.cpp:213-216 | an empty store uses no memory |
| CoinsCache.CoinsStore.AddFetched | src/coins.cpp:235-254 | the entry is clean, FRESH only if spent, and `cachedCoinsUsage` stays the sum over the entries |
| CoinsCache.CoinsStore.AddCoin | src/coins.cpp:256-285 | throws exactly on a forbidden overwrite of an unspent coin; otherwise adds, and `cachedCoinsUsage` stays the sum over the entries, a new one counting with its script |
| CoinsCache.CoinsStore.SpendCoin | src/coins.cpp:305-319 | says whether there was an entry; drops or clears it, with the sum kept |
| CoinsCache.CoinsStore.EraseCoin | src/coins.cpp:335-339 | erases one entry, with the sum kept |
| CoinsCache.CoinsStore.UncacheOne | src/coins.cpp:341-349 | erases only entries without flags, with the sum kept |
| CoinsCache.CoinsStore.ReplaceWithCoinWithScript | src/coins.h:427-436 | the script of a coin kept without it arrives, flags unchanged, with the sum kept |
| CoinsCache.CoinsStore.MoveOutCoins | src/coins.h:408-415 | hands over all entries and leaves an empty store without memory |
| CoinsCache.CoinsStore.MergeOne | src/coins.cpp:355-389 | one dirty child entry: throws exactly on a wrong FRESH flag, otherwise inserts, updates or erases, with the sum kept |
| CoinsCache.CoinsStore.BatchWrite | src/coins.cpp:351-394 | throws if and only if some child entry has a wrong FRESH flag; otherwise the result is the merge, in whatever order the child is walked |
| CoinsCache.CoinsDB.constructor | src/txdb.cpp:472-480 | starts with an empty cache |
| CoinsCache.CoinsDB.GetCoin | src/txdb.cpp:487-612 | the in-place lookup is the functional one, whatever room is left for scripts |
| CoinsCache.CoinsDB.Flush | src/txdb.cpp:647-661 | the database takes over exactly what the cache showed |
| CoinsCache.ViewCache.constructor | src/coins.cpp:15-19 | a new cache over a consistent one is consistent |
| CoinsCache.ViewCache.GetCoin | src/coins.cpp:26-77 | answers for the coin the whole stack shows |
| CoinsCache.ViewCache.HaveCoin | src/coins.cpp:132-136 | true exactly if the stack shows the coin |
| CoinsCache.ViewCache.SpendCoin | src/coins.cpp:117-130 | afterwards the coin is not shown; the result is true exactly if it was shown or the cache already held it as spent |
| CoinsCache.ViewCache.Flush | src/txdb.cpp:712-732 | never throws, and the layer below shows exactly what this one showed |
| AddrMan.RandomCovers | src/addrman.cpp:397-459 | vRandom has exactly one place per entry, the first test of `Check_` |
| AddrMan.CheckSize | src/addrman.cpp:401 | that size is nTried + nNew |
| AddrMan.SwapKeeps | src/addrman.cpp:102-118 | swapping two places of vRandom touches nothing else and keeps all indexes inverse |
| AddrMan.CreateKeeps | src/addrman.cpp:91-100 | a new entry under an unused address keeps everything consistent except its missing slot and count |
| AddrMan.DeleteKeeps | src/addrman.cpp:120-131 | deleting an entry without references keeps everything consistent, counters included |
| AddrMan.ClearKeeps | src/addrman.cpp:133-145 | clearing a slot, with the deletion of an entry that loses its last one, keeps everything consistent |
| AddrMan.ClearOthers | src/addrman.cpp:133-145 | and touches only that slot and the entry in it |
| AddrMan.MakeSpaceKeeps | src/addrman.cpp:164-187 | making space in a tried slot, by moving its entry back to the new table over whatever is there, keeps everything consistent |
| AddrMan.EvictedSurvives | src/addrman.cpp:164-187 | the entry that makes way is never the one that its own new slot evicts |
| AddrMan.MakeTriedKeeps | src/addrman.cpp:147-193 | moving an entry to the tried table keeps everything consistent, counters included |
| AddrMan.HomeFree | src/addrman.cpp:175-186 | clearing the slot that an entry without slots goes to does not touch the entry |
| AddrMan.SendHomeKeeps | src/addrman.cpp:171-187 | putting such an entry into its home slot, over whatever is there, settles it: nothing is left uncounted or without a slot |
| AddrMan.MakeTriedTimes | src/addrman.cpp:147-193 | the times that `Check_` tests stay right if and only if the moved entry has a success time |
| AddrManSteps.MakeTriedMoves | src/addrman.cpp:147-193 | the entry itself loses its references, becomes tried and keeps the rest |
| AddrManSteps.FindExact | src/addrman.cpp:82-89 | a lookup finds the entry with that address, if and only if there is one |
| AddrManSteps.AlwaysInSomeBucket | src/addrman.cpp:221-235 | the "something bad happened" exit of `Good_` is unreachable |
| AddrManSteps.GoodKeeps | src/addrman.cpp:195-241 | at any time `Good_` keeps tables, references, counters and indexes consistent and leaves the entry tried with its success time |
| AddrManSteps.GoodChecksIff | src/addrman.cpp:195-241 | it keeps the full check if and only if the time is positive or the address unknown |
| AddrManSteps.RefreshSettles | src/addrman.cpp:256-266 | an announcement never sets a known time back, moves it by more than an hour or not at all, never loses a service, and said twice does no more than said once; the exact time is in `AddrManLaws.AddUpdates` |
| AddrManSteps.PlaceKeeps | src/addrman.cpp:292-313 | the end of `Add_` restores consistency in every branch |
| AddrManSteps.AddKeeps | src/addrman.cpp:243-315 | `Add_` keeps the manager consistent for every announcement, source, penalty, time and throw of the dice |
| AddrManSteps.AddChecks | src/addrman.cpp:243-315 | and the full check, if it held |
| AddrManSteps.StatisticsKeep | src/addrman.cpp:317-510 | `Attempt_`, `Connected_` and `SetServices_` keep the manager consistent; what they record is in `AddrManLaws` |
| AddrManSteps.StepKeeps | src/addrman.cpp:91-510 | every operation keeps the manager consistent, whatever its times |
| AddrManSteps.StepChecksIff | src/addrman.cpp:397-510 | an operation keeps the full check if and only if its time is one that `Check_` accepts |
| AddrManSteps.FreshChecks | src/addrman.h:473-494 | a constructed manager passes the full check |
| AddrManSteps.RunSound | src/addrman.cpp:397-459 | every state of every sequence of operations from a constructed manager, with any times, has right counters, reference counts equal to the slots held and within 1..8, every slot where the hashes say, all indexes inverse |
| AddrManSteps.RunChecks | src/addrman.cpp:397-459 | with times that `Check_` accepts, every such state passes everything `Check_` tests |
| AddrManEffects.TakeEffect | src/addrman.cpp:304-308 | taking a slot leaves it with the new holder and touches nothing but the slot and its old holder |
| AddrManEffects.PlaceEffect | src/addrman.cpp:292-313 | placing an entry can change only the slot its source selects; the slot then holds the entry or what it held; everybody except the entry and the slot's old holder is untouched; an entry that may take the slot gets it |
| AddrManEffects.PlaceOwn | src/addrman.cpp:292-313 | an entry that has a reference survives and gains at most one |
| AddrManEffects.PlaceFresh | src/addrman.cpp:292-313 | a just created entry survives if and only if it may take its slot, and then has exactly that one |
| AddrManEffects.AddTouches | src/addrman.cpp:243-315 | an announcement never changes the tried table and concerns one new slot, its entry and the slot's old holder |
| AddrManEffects.AddPlaces | src/addrman.cpp:243-315 | an unknown address is kept if and only if its slot is free, held by a terrible entry or by one that has other slots |
| AddrManEffects.AddRefreshes | src/addrman.cpp:256-283 | a known address is never lost by being announced again; it gains the announced services and at most one reference, and stays new or tried |
| AddrManEffects.SpaceMade | src/addrman.cpp:164-187 | the entry that makes way in the tried table is back in the new slot that its address and source select |
| AddrManEffects.MakeTriedEffect | src/addrman.cpp:147-193 | exactly the entry's own tried slot changes, the entry leaves all new slots, and a displaced entry is kept in its home new slot |
| AddrManEffects.GoodEffect | src/addrman.cpp:195-241 | the same for `Good_`, whether or not the entry was tried already |
| AddrManLaws.ClearedHolder | src/addrman.cpp:133-145 | clearing a slot takes one reference from its holder, or removes the holder with its address if that was the last; nothing else about it changes |
| AddrManLaws.PlaceExact | src/addrman.cpp:292-313 | an entry with references takes its slot if and only if that is free or held by another, terrible entry, which then makes way by one reference; otherwise nothing changes |
| AddrManLaws.AddUpdates | src/addrman.cpp:249-315 | the exact effect of announcing a known address: the time becomes the announced one less the penalty, not below zero, if and only if one is announced and the known one is missing or older by more than the update interval and the penalty; the services are added; the reference count grows by one, with the slot taken and its holder giving one up, if and only if there is news, the entry is new with fewer than eight references, the dice allow it and the slot is free or held by another, terrible entry; the rest of the entry stays |
| AddrManLaws.AddStores | src/addrman.cpp:284-313 | the exact effect of announcing an unknown address: it is stored under the next id with the announced services, the penalised time, its source, no statistics and one reference in the slot that address and source select, or nothing is stored and no slot changes |
| AddrManLaws.AddIgnores | src/addrman.cpp:245 | an address that is not routable changes nothing |
| AddrManLaws.MakeTriedExact | src/addrman.cpp:147-193 | the moved entry changes only its reference count, its table and its place in vRandom; an entry in its tried slot goes to its home slot with one reference and whoever was there makes way; everybody else stays |
| AddrManLaws.GoodRecords | src/addrman.cpp:195-241 | `Good_` always sets the last good time; a known service gets success and try time, no failed attempts, keeps everything else and is tried afterwards; an unknown one or another port changes nothing more |
| AddrManLaws.GoodMoves | src/addrman.cpp:218-240 | where the others end up: the entry in the tried slot goes to the new slot that its own address and source select, the holder of that slot makes way, the rest stay |
| AddrManLaws.AttemptRecords | src/addrman.cpp:317-336 | the try time is set; the failure is counted, with its time, if and only if it should be and none was counted since the last success of anybody; nothing else changes |
| AddrManLaws.AttemptCountsOnce | src/addrman.cpp:331-335 | so of two attempts not before the last success, with none in between, at most one is counted as a failure |
| AddrManLaws.ConnectedRecords | src/addrman.cpp:479-494 | the time moves to the given one if and only if that is more than twenty minutes later; nothing else changes |
| AddrManLaws.ServicesRecorded | src/addrman.cpp:496-510 | the services are replaced; nothing else changes |
| AddrManLaws.TerribleWhen | src/addrman.cpp:46-66 | an entry tried within the last minute is never terrible; any other is if and only if its time is missing, over ten minutes ahead or over seven days old, or it has failed three times without any success, or ten times and not succeeded for two days |
| AddrManager.WorthyExact | src/addrman.cpp:462-477 | the collected addresses are those of the visited entries that are not terrible, each once |
| AddrManager.CollectedExactly | src/addrman.cpp:462-477 | in every consistent manager: an address is collected if and only if a visited entry with it is not terrible, and never twice |
| AddrManager.AddrLimit | src/addrman.cpp:463-464 | 23 percent of the entries, at most 2500 |
| AddrManager.Manager.constructor | src/addrman.h:473-494 | the object starts as the empty state |
| AddrManager.Manager.SwapAt | src/addrman.cpp:102-118 | exactly the swap that `SwapKeeps` is about, on the object |
| AddrManager.Manager.DeleteEntry | src/addrman.cpp:120-131 | exactly the deletion that `DeleteKeeps` is about; what the source asserts, not tried and without references, is demanded of every caller and proved there |
| AddrManager.Manager.ClearSlot | src/addrman.cpp:133-145 | exactly the clearing that `ClearKeeps` and `ClearOthers` are about; its entry has a reference, as the source asserts, and if it is deleted it is not tried |
| AddrManager.Manager.LeaveNewBuckets | src/addrman.cpp:149-158 | the loop over 1024 buckets removes exactly the entry's slots and ends with reference count 0, as the source asserts |
| AddrManager.Manager.MakeSpaceAt | src/addrman.cpp:164-187 | exactly the eviction that `MakeSpaceKeeps` and `SpaceMade` are about; the assertions of the source hold |
| AddrManager.Manager.VacateFor | src/addrman.cpp:160-188 | afterwards the entry's tried slot is free |
| AddrManager.Manager.MoveToTried | src/addrman.cpp:147-193 | exactly the move that `MakeTriedKeeps` and `MakeTriedEffect` are about; the three assertions of the source hold |
| AddrManager.Manager.SearchBuckets | src/addrman.cpp:221-235 | from every starting bucket the search finds a bucket if and only if there is one |
| AddrManager.Manager.MarkGood | src/addrman.cpp:195-241 | exactly the `Good_` that `GoodKeeps`, `GoodEffect`, `GoodRecords` and `GoodMoves` are about, at any time and wherever the search starts; the full check is kept if and only if the time is positive or the address unknown |
| AddrManager.Manager.PlaceEntry | src/addrman.cpp:292-313 | exactly the placement that `PlaceEffect` is about; an entry dropped here has no reference and is not tried, as `Delete` asserts |
| AddrManager.Manager.EnlistEntry | src/addrman.cpp:284-290 | creates the entry with its penalised time and counts it |
| AddrManager.Manager.AddAddress | src/addrman.cpp:243-315 | exactly the `Add_` that `AddTouches`, `AddPlaces`, `AddUpdates`, `AddStores` and `AddIgnores` are about; consistency and the full check are kept; the result says whether the address was unknown |
| AddrManager.Manager.Gather | src/addrman.cpp:466-477 | the loop visits a growing prefix of the entries and collects the worthy ones of it |
| AddrManager.Manager.GetAddr | src/addrman.cpp:462-477 | shuffles vRandom only and keeps everything consistent; returns exactly the addresses of the visited entries that are not terrible, each once, no more than the limit, and stops early only at the limit |
| AddrManager.Manager.RecordAttempt | src/addrman.cpp:317-336 | exactly the `Attempt_` that `AttemptRecords` is about; consistency is kept |
| AddrManager.Manager.RecordConnected | src/addrman.cpp:479-494 | exactly the `Connected_` that `ConnectedRecords` is about; consistency is kept |
| AddrManager.Manager.RecordServices | src/addrman.cpp:496-510 | exactly the `SetServices_` that `ServicesRecorded` is about; consistency is kept |
| AddrManStore.OccupiedExact | src/addrman.h:342-354 | a bucket's list has its occupied slots, each once, by position |
| AddrManStore.NewEntryStep | src/addrman.h:388-406 | one new entry read back is that entry under its number in the file |
| AddrManStore.TriedEntryStep | src/addrman.h:409-427 | one tried entry read back lands in its own slot; none is lost to a collision |
| AddrManStore.SlotStep | src/addrman.h:430-449 | one index read back restores exactly the slot it was written for |
| AddrManStore.ReadsBack | src/addrman.h:357-450 | reading what was written gives the manager back up to renaming of ids |
| AddrManStore.RenamingChecks | src/addrman.h:452-470 | such a manager passes the full check and has nothing to prune |
| AddrManStore.SizesFit | src/addrman.h:378-386 | the size limits never reject a saved manager |
| AddrManStore.ListEntries | src/addrman.h:318-341 | each half of the list has every entry of its table once, and the counters' assertions hold |
| AddrManStore.ListBucket | src/addrman.h:342-354 | the indexes of a bucket name what is in its slots, in order |
| AddrManStore.ListBuckets | src/addrman.h:342-354 | all 1024 buckets are listed so |
| AddrManStore.JoinedLists | src/addrman.h:318-341 | the two halves together list every entry once, under the numbers the buckets use |
| AddrManStore.Serialize | src/addrman.h:306-355 | the file lists all entries and all buckets of the manager, whatever the order of the map |
| AddrManStore.LoadNews | src/addrman.h:388-406 | the loop over the new entries, also for files without usable buckets |
| AddrManStore.LoadTrieds | src/addrman.h:409-428 | the loop over the tried entries, with its losses |
| AddrManStore.LoadBucket | src/addrman.h:432-449 | the loop over one bucket's indexes |
| AddrManStore.LoadBuckets | src/addrman.h:430-450 | the loop over all buckets |
| AddrManStore.PruneOne | src/addrman.h:452-463 | deleting one more entry without a slot changes nothing else but vRandom and mapAddr |
| AddrManStore.Prune | src/addrman.h:452-463 | deletes exactly the new entries without a slot and leaves all others as they are, up to their place in vRandom; if only slots were missing the result is consistent |
| AddrManStore.AllNumbered | src/addrman.h:388-450 | whatever the file says, vRandom is consistent when the pruning starts, so its deletions are safe |
| AddrManStore.Unserialize | src/addrman.h:357-471 | throws exactly on oversized counts; for every other file the result is what the loops read less exactly the new entries without a slot, and it is consistent if only slots were missing |
| AddrManStore.SaveAndLoad | src/addrman.h:306-471 | for every consistent manager: writing and reading loses no entry and no slot, gives the same tables, reference counts and counters up to renaming, and the result passes the full check |
| AddrManLoad.AnyFileReads | src/addrman.h:388-450 | whatever a file says about versions, buckets and indexes: if its addresses differ, what the loops have read lacks nothing but slots of new entries |
| AddrManLoad.LoadAny | src/addrman.h:357-471 | so every file with different addresses, written by whatever program, loads into a consistent manager, and with proper success times into one that passes the full check |
| AddrManLoad.SameAddressBreaks | src/addrman.h:409-427 | two tried entries under one address in different slots do not: the index by address knows only one of them |
| AddrManLoad.ForeignFile | src/addrman.h:388-406 | a file of another version or bucket count keeps, of its new entries, the first for each home slot and no other |
| ArithUint256.ValueBound | src/arith_uint256.h:24-29 | n limbs write the numbers below 2^(32 n) |
| ArithUint256.AddTo | src/arith_uint256.h:120-128 | the sum modulo the width, also when added to itself |
| ArithUint256.Increment | src/arith_uint256.h:153-159 | one more, modulo the width, by carrying through the limbs that wrap |
| ArithUint256.Decrement | src/arith_uint256.h:168-174 | one less, modulo the width |
| ArithUint256.Complement | src/arith_uint256.h:62-67 | all ones minus the number |
| ArithUint256.Negate | src/arith_uint256.h:69-75 | the negative, modulo the width |
| ArithUint256.SubFrom | src/arith_uint256.h:130-133 | the difference modulo the width, also with itself |
| ArithUint256.NoOverflow | src/arith_uint256.cpp:62-69 | the 64-bit accumulator of the multiplication never overflows |
| ArithUint256.MulWord | src/arith_uint256.cpp:47-56 | the product with one limb, modulo the width |
| ArithUint256.MulRound | src/arith_uint256.cpp:62-69 | a round adds exactly its partial product, up to multiples of the modulus |
| ArithUint256.MulBig | src/arith_uint256.cpp:58-71 | the product modulo the width if and as long as the operands are different objects; the same object gives zero |
| ArithUint256.CompareTo | src/arith_uint256.cpp:103-110 | the order of the numbers, and equality exactly for equal limbs |
| ArithUint256.OrIsSum | src/arith_uint256.cpp:17-45 | bits that do not overlap are added by "or" |
| ArithUint256.ShiftLeft | src/arith_uint256.cpp:17-30 | multiplication by 2^shift modulo the width, for every shift |
| ArithUint256.ShiftRight | src/arith_uint256.cpp:32-45 | the quotient by 2^shift, for every shift |
| ArithUint256.Clear | src/arith_uint256.h:31-34 | zero |
| ArithUint256.Copy | src/arith_uint256.h:36-39 | an equal number in another object |
| ArithDivision.Bits | src/arith_uint256.cpp:148-158 | the number of binary digits: 2^(n-1) <= value < 2^n |
| ArithDivision.SetBit | src/arith_uint256.cpp:92-94 | setting a bit of the quotient adds its power of two |
| ArithDivision.DivideStep | src/arith_uint256.cpp:89-98 | one round decides one bit and keeps dividend = quotient * divisor + rest with the rest below the shifted divisor |
| ArithDivision.ShiftSubtract | src/arith_uint256.cpp:87-98 | the loop ends with the integer quotient |
| ArithDivision.Divide | src/arith_uint256.cpp:73-101 | the integer quotient for every non-zero divisor; throws exactly on zero |
| Compact.OverflowExact | src/arith_uint256.cpp:189-193 | the three-way size test is exactly: the number meant needs more than 32 bytes |
| Compact.EncodedFields | src/arith_uint256.cpp:197-218 | the packed size and mantissa, which never look negative |
| Compact.RoundsDown | src/arith_uint256.cpp:178-218 | decoding an encoded number gives it back if it has at most three mantissa bytes, and otherwise loses less than one unit of the last mantissa byte, never rounding up |
| Compact.Idempotent | src/arith_uint256.cpp:178-218 | encoding, decoding and encoding again changes nothing |
| Compact.CompactFormula | src/arith_uint256.h:275-291 | the documented formula: mantissa * 256^(exponent - 3), rounded down where the exponent is below three |
| Compact.DocumentedExamples | src/arith_uint256.h:285-287 | both documented examples, in both directions |
| Compact.NoCloser | src/arith_uint256.cpp:178-218 | no compact word comes closer to a number from below than its encoding |
| Compact.SignedDecodes | src/arith_uint256.cpp:178-218 | the sign bit is set exactly for a negative non-zero mantissa and does not change the number |
| Compact.Assign | src/arith_uint256.h:79-85 | the number of a 64-bit value |
| Compact.GetLow64 | src/arith_uint256.h:261-264 | the number modulo 2^64 |
| Compact.SetCompact | src/arith_uint256.cpp:178-195 | mantissa * 256^(size - 3) modulo 2^256; negative and overflow flags exact |
| Compact.LeadingBytes | src/arith_uint256.cpp:198-205 | the three leading bytes, without losing any to the 32-bit type |
| Compact.Pack | src/arith_uint256.cpp:213-218 | "or" packs the fields without overlap |
| Compact.GetCompact | src/arith_uint256.cpp:197-218 | the encoding of the number for all 2^256 values; its two assertions hold |
| Compact.NotAllOnes | src/block_index.cpp:106-119 | no target is 2^256 - 1, so adding one does not wrap |
| Compact.WorkFormula | src/block_index.cpp:113-118 | ~t / (t + 1) + 1 is 2^256 / (t + 1) |
| Compact.WorkOf | src/block_index.cpp:118 | the limb computation of that quotient |
| Compact.BlockProof | src/block_index.cpp:106-119 | the work of every nBits: 2^256 / (target + 1) rounded down for an accepted target, 0 for a negative, overflowing or zero one |
| Compact.WorkFits | src/block_index.cpp:113-118 | the work is at least 1 and fits |
| Compact.WorkMonotone | src/block_index.cpp:106-119 | a smaller target is at least as much work |
| Compact.IsZero | src/arith_uint256.h:56-60 | true exactly for zero |
| BlockTree.InvertClears | src/block_index.cpp:19-21 | n & (n - 1) clears the lowest one and nothing else |
| BlockTree.SkipsBack | src/block_index.cpp:24-34 | the skip height is always below the block |
| BlockTree.AtAt | src/block_index.cpp:73-97 | an ancestor of an ancestor is the ancestor |
| BlockTree.Block.constructor | src/block_index.h:876-903 | the new block's height, maximal time and skip link are those of a tree built block by block |
| BlockTree.Block.GetAncestor | src/block_index.cpp:73-97 | for every height the skip search ends and finds what following `pprev` finds, and nothing out of range |
| BlockTree.Block.WalkBack | src/block_index.cpp:78-96 | the loop takes exactly the steps that the bounds below are about |
| BlockTree.LastCommonUnique | src/block_index.cpp:148-164 | two blocks have at most one last common ancestor |
| BlockTree.LastCommonAncestor | src/block_index.cpp:148-164 | the highest common ancestor, or none for different trees; the final assertion holds |
| SkipSteps.ClearedIs | src/block_index.cpp:19-21 | n & (n - 1) is n less its lowest power of two |
| SkipSteps.SkipBefore | src/block_index.cpp:24-34 | how far the block before an even height skips, by the lowest one of that height |
| SkipSteps.OddBound | src/block_index.cpp:80-93 | from any odd height less than 2^k above a multiple of 2^k, to any height above that multiple, the search takes at most 1 + sum of (i + 4) / 2 for i = 2 .. k - 1 steps (one more to the first such height if k is 2) |
| SkipSteps.EvenLowBound | src/block_index.cpp:80-93 | from an even height not divisible by 8 it takes at most one step more than that |
| SkipSteps.EvenHighBound | src/block_index.cpp:80-93 | from a multiple of 8 below 2^k it takes at most k - 3 steps more than that sum for k - 1 |
| SkipSteps.SearchBound | src/block_index.cpp:29-33 | for k of at least 11, no search between heights below 2^k takes more than that |
| SkipSteps.BoundAttained | src/block_index.cpp:29-33 | the search from 2^k - 8 to 2 takes exactly that many steps, so the bound is the maximum |
| SkipSteps.SimulationRight | src/block_index.cpp:29-33 | the comment's "max 110 steps to go back up to 2**18 blocks" is exact: no search takes more and one takes 110 |
| Chain.BlockChain.constructor | src/chain.h:20-21 | an empty chain |
| Chain.BlockChain.ContainsExact | src/chain.h:55-57 | contains exactly the tip and its ancestors |
| Chain.BlockChain.NextExact | src/chain.h:63-69 | the successor in the chain, for every block of it except the tip |
| Chain.BlockChain.SetTip | src/chain.cpp:11-25 | afterwards entry h is the new tip's ancestor at h for all h, although the loop stops where the old chain agrees |
| Chain.BlockChain.GetLocator | src/chain.cpp:27-56 | ancestors of the start at distances 1 for the first entries and then doubling, ending at the first block |
| Chain.BlockChain.FindFork | src/chain.cpp:58-69 | the highest common ancestor of the block and the tip |
| Chain.BlockChain.FindEarliestAtLeast | src/chain.cpp:71-78 | the first block whose own time reaches the bound, found by binary search over the maximal times |
| Chain.Agree | src/chain.cpp:11-25 | two chains that meet at a height agree below it, which justifies the early stop |
| Chain.TimesBelow | src/block_index.h:893 | the maximal time bounds the times of all ancestors and never falls |
| Chain.OwnTime | src/chain.cpp:71-78 | a block that raises the maximal time does so with its own |
| Chain.StepsDescend | src/chain.cpp:27-56 | locator entries strictly descend |
| Chain.LocatorShort | src/chain.cpp:27-56 | a locator of n entries needs a height above 2^(n - 13) |
| Descendants.NextInSubtrees | src/blockindex_with_descendants.h:100-136 | from any child on, `Next` goes through the subtrees in recursive preorder and then past the parent |
| Descendants.NextIsPreorder | src/blockindex_with_descendants.h:82-136 | repeated `Next` from the root is the recursive preorder and ends after it |
| Descendants.VisitsOnce | src/blockindex_with_descendants.h:82-136 | the walk visits each descendant of the root exactly once and nothing else |
| Descendants.ParentsFirst | src/blockindex_with_descendants.h:82-136 | parents come before their children |
| Descendants.Collect | src/blockindex_with_descendants.h:162-175 | the items are the root and the known blocks above it up to the height, each once |
| Descendants.IndexItems | src/blockindex_with_descendants.h:177-183 | the map finds the item of each block |
| Descendants.UpIsAncestor | src/blockindex_with_descendants.h:186-203 | among the items, following parents to the root is descending from it by `pprev` |
| Descendants.FinishedTree | src/blockindex_with_descendants.h:186-203 | the linked items form a tree with consistent parents, children and heights |
| Descendants.DescendantTree.constructor | src/blockindex_with_descendants.h:162-204 | builds that tree for every set of known blocks |
| Descendants.DescendantTree.LinkAll | src/blockindex_with_descendants.h:186-203 | every item whose predecessor has an item is linked to it, the others to none |
| Descendants.DescendantTree.NextItem | src/blockindex_with_descendants.h:100-136 | the climbing loop is the recursive successor; its assertion holds |
| Descendants.VisitedExactly | src/blockindex_with_descendants.h:100-204 | the blocks visited are exactly the root and its descendants up to the height |
| Freeze.FrozenIsMaximum | src/block_index.h:994-1010 | the inherited status is the largest of what the explicit freezes of the block and all its ancestors still impose, or -1 |
| Freeze.FreezeEffect | src/validation.cpp:3367-3387 | a new freeze raises exactly the descendants within its reach |
| Freeze.NoneMissed | src/validation.cpp:3378-3381 | the walk misses no affected block unless height + duration overflows |
| Freeze.MissedOnlyHigh | src/validation.cpp:3378-3381 | a missed block is above height 2^30 - 1 and the sum did overflow, so only chains of more than 2^30 blocks are affected |
| Freeze.MissedChild | src/validation.cpp:3378-3381 | there it happens: a child of a block at height 2^30 that is frozen for 2^30 - 1 blocks is missed and should have been frozen |
| Freeze.FreezeIndex.constructor | src/block_index.h:531-556 | without freezes every status is -1 and right |
| Freeze.FreezeIndex.UpdateFromParent | src/block_index.h:551-556 | in place, the larger of the own freeze and the parent's status less one |
| Freeze.FreezeIndex.UpdateItem | src/validation.cpp:3383-3386 | one step of the walk makes one more block right and leaves the others |
| Freeze.FreezeIndex.WalkDescendants | src/validation.cpp:3383-3386 | after the walk every visited block is right |
| Freeze.FreezeIndex.Settled | src/validation.cpp:3367-3387 | a block ends up right if and only if it was not missed or the freeze did not matter to it |
| Freeze.FreezeIndex.SoftFreeze | src/validation.cpp:3367-3387 | given right statuses before: afterwards a block is right if and only if it is not one that the overflowing sum makes the walk miss and whose status should have risen; with no such block all are right |
| ByteBits.MaskSets | src/cuckoocache.h:88-90 | setting a bit of a byte changes only that bit |
| ByteBits.MaskClears | src/cuckoocache.h:99-101 | clearing a bit of a byte changes only that bit |
| CuckooCache.FoundAtPlaces | src/cuckoocache.h:446-457 | an element other than the default one is in the table if and only if one of its eight places holds it |
| CuckooCache.SwapKeeps | src/cuckoocache.h:405-409 | a swap keeps placement, uniqueness and the elements, counting the one in hand |
| CuckooCache.PlaceKeeps | src/cuckoocache.h:383-388 | taking an erased slot keeps them and adds the element to the kept ones |
| CuckooCache.LivingUpdate | src/cuckoocache.h:267-272 | how one changed slot changes the size of the living epoch |
| CuckooCache.KeptOfUpdate | src/cuckoocache.h:383-388 | what putting an element with its epoch into a slot does to either epoch |
| CuckooCache.AgedKept | src/cuckoocache.h:277-282 | ageing keeps the living epoch as the old one and nothing of the old one |
| CuckooCache.ChainGoesOn | src/cuckoocache.h:405-416 | a swap loses nothing, and the element put down and the one picked up each keep their epoch |
| CuckooCache.ChainEnds | src/cuckoocache.h:382-389 | a chain that finds an erased slot keeps every kept element, each in its epoch |
| CuckooCache.NextPlaceMoves | src/cuckoocache.h:390-408 | the chain starts at the second place, and does not move back the element just put in if its places differ |
| CuckooCache.TrailGoesOn | src/cuckoocache.h:390-416 | each element on the way is put into the place after the one it was taken from, around the eight |
| CuckooCache.LifeOf | src/cuckoocache.h:252-294 | over every run of insertions and lookups: an element, not inserted again, is kept in the living epoch until the first ageing after its insertion, in the old one until the second, and then no more, unless a chain or a lookup gave it up before |
| CuckooCache.NeverInserted | src/cuckoocache.h:446-457 | what was never inserted is never kept |
| CuckooCache.Cache.constructor | src/cuckoocache.h:315-329 | an empty table of a power of two, with the epoch size 45 percent of it |
| CuckooCache.Cache.CountLiving | src/cuckoocache.h:267-272 | the scan counts the un-erased entries of the epoch |
| CuckooCache.Cache.AgeEpochs | src/cuckoocache.h:277-282 | the old epoch is erased, the living one becomes the old one |
| CuckooCache.Cache.EpochCheck | src/cuckoocache.h:262-294 | leaves room for one more living entry, erasing exactly the old epoch and only when a scan is due and the living one is full; the next scan comes when the living epoch could have reached its size, but not before max(1, epoch_size / 16) insertions |
| CuckooCache.Cache.Contains | src/cuckoocache.h:446-457 | true exactly if one of its eight places holds the element, erased or not, which for any but the default element means that the table has it; erasing gives up one such place and takes exactly that element from the kept ones |
| CuckooCache.Cache.FindElement | src/cuckoocache.h:375-380 | the first place that holds the element |
| CuckooCache.Cache.FindErased | src/cuckoocache.h:383-389 | the first erased place |
| CuckooCache.Cache.PutDown | src/cuckoocache.h:383-388 | the element in hand takes an erased place and keeps its epoch |
| CuckooCache.Cache.Swap | src/cuckoocache.h:409-416 | the element in hand and the one in the slot change places and epochs |
| CuckooCache.Cache.Renew | src/cuckoocache.h:375-380 | an element that is there already is kept and joins the living epoch; the others stay |
| CuckooCache.Cache.Enter | src/cuckoocache.h:381-417 | the same law as `Insert` for an element that is not there, after the epoch check |
| CuckooCache.Cache.Chain | src/cuckoocache.h:381-417 | exactly one element makes way; the new one joins the living epoch and every other keeps its own; a kept element makes way only if the depth, all of it, runs out and the new element had no erased place; the trail of slots follows the rule for the next place |
| CuckooCache.Cache.Insert | src/cuckoocache.h:368-418 | for every element, the default one included: the table's multiset gains the element and loses exactly one, or is unchanged if one of its places held it; afterwards the element is kept and in the living epoch, the others in the epoch they were in; a kept element, with its epoch, is lost only when the depth runs out; every element stays at one of its places, once; the size of the living epoch is exact and never exceeds epoch_size + max(1, epoch_size / 16) |
| CuckooCache.BitFlags.constructor | src/cuckoocache.h:58-64 | all flags set |
| CuckooCache.BitFlags.Set | src/cuckoocache.h:88-90 | sets that flag and no other |
| CuckooCache.BitFlags.Unset | src/cuckoocache.h:99-101 | clears that flag and no other |
| RollingBloom.FastModInRange | src/bloom.cpp:260-262 | the reduction stays below n |
| RollingBloom.WipeRemembers | src/bloom.cpp:265-280 | starting a generation wipes what was last set three generations ago and nothing else |
| RollingBloom.StampRemembers | src/bloom.cpp:290-293 | setting a position records the current generation there |
| RollingBloom.RecentPeriods | src/bloom.cpp:221-224 | the last nElements insertions fall into the last three generations |
| RollingBloom.Filter.constructor | src/bloom.cpp:212-247 | an empty filter with (nElements + 1) / 2 entries per generation |
| RollingBloom.Filter.Reset | src/bloom.cpp:321-328 | forgets the history and changes the tweak |
| RollingBloom.Filter.Wipe | src/bloom.cpp:273-279 | the masking clears exactly the positions of one generation |
| RollingBloom.Filter.StampAt | src/bloom.cpp:288-293 | sets exactly one position to the generation |
| RollingBloom.Filter.Stamp | src/bloom.cpp:283-294 | all positions of the key carry the current generation; no other is forgotten |
| RollingBloom.Filter.MakeRoom | src/bloom.cpp:265-281 | the generation number is that of the period the next insertion falls into |
| RollingBloom.Filter.Insert | src/bloom.cpp:264-295 | the history grows by the key and all that is remembered stays right |
| RollingBloom.Filter.SetExactly | src/bloom.cpp:302-314 | a position is set if and only if a key inserted in the last three generations points to it |
| RollingBloom.Filter.Contains | src/bloom.cpp:302-314 | for every history since the reset: a key is reported if and only if keys of the last three generations point to all its positions; so each of the last nElements keys is |
| RollingBloom.Filter.Recent | src/bloom.cpp:302-314 | the positions of those keys are all still set |
| Base58.ReadWritten | src/base58.cpp:79-120 | reading the shortest digits of a number gives the number |
| Base58.WriteRead | src/base58.cpp:23-77 | digits without a leading zero are the shortest ones of their number |
| Base58.Carry | src/base58.cpp:47-54 | the carrying loop multiplies the part it went through and stops only where nothing is left or the buffer ends |
| Base58.MulAdd | src/base58.cpp:46-56 | buffer * m + digit in place; the carry assertion holds |
| Base58.NoCarryLeft | src/base58.cpp:55 | in a buffer that is large enough no carry is left |
| Base58.EncodeFits | src/base58.cpp:87-90 | 138/100 digits per byte always suffice: 256^n <= 58^(n * 138 / 100 + 1) for every n |
| Base58.DecodeFits | src/base58.cpp:35-38 | 733/1000 bytes per character always suffice: 58^n <= 256^(n * 733 / 1000 + 1) for every n |
| Base58.AlphabetIs | src/base58.cpp:19-21 | the alphabet is all alphanumeric characters except 0, I, O and l, in increasing order |
| Base58.AlphabetInverse | src/base58.cpp:19-22 | characters and digits are inverse; no alphabet character is a space or a NUL |
| Base58.Significant | src/base58.cpp:66-76 | what is left after the leading zeros is the shortest way to write the number |
| Base58.Convert | src/base58.cpp:91-111 | the encoder's loop gives the shortest digits in the other base |
| Base58.EncodeBase58 | src/base58.cpp:79-120 | a '1' for each leading zero byte, then the shortest digits |
| Base58.SkipSpaces | src/base58.cpp:24-27 | all leading spaces |
| Base58.CountOnes | src/base58.cpp:28-34 | all leading ones |
| Base58.TakeChar | src/base58.cpp:41-57 | one character takes the buffer from the number of n characters to that of n + 1; the carry assertion holds |
| Base58.ReadWord | src/base58.cpp:39-58 | character by character, as far as the first space; stops exactly at a foreign character; otherwise the buffer holds the number that the word writes |
| Base58.ReadIntoBuffer | src/base58.cpp:35-58 | allocating and reading: the buffer is always large enough for the word |
| Base58.DecodeBase58 | src/base58.cpp:23-77 | one word between spaces up to a NUL; refused exactly if it has a foreign character or something follows the trailing spaces |
| Base58.DecodedSpelled | src/base58.cpp:23-77 | what a word over the alphabet decodes to |
| Base58.CStringIs | src/base58.cpp:23-27 | the decoder sees the string up to its first NUL |
| Base58.SpacesAround | src/base58.cpp:24-65 | spaces around a word make no difference |
| Base58.DecodesIff | src/base58.cpp:23-77 | a string decodes to given bytes if and only if, up to its first NUL, it is their encoding with nothing but spaces around it |
| Base58.DecodesToBytes | src/base58.cpp:70-75 | whatever decodes gives bytes |
| Base58.DecodeEncode | src/base58.cpp:23-120 | decoding an encoded byte string gives it back, for every byte string |
| Base58.EncodeDecode | src/base58.cpp:23-120 | every string over the alphabet decodes, and encoding the result gives it back |
| MempoolBatch.AddConsistent | src/mempooltxdb.cpp:189-197 | a batch keeps to what changes the database |
| MempoolBatch.AddRefines | src/mempooltxdb.cpp:189-197 | adding through the batch, with its cancellation of a pending remove, is adding to the pending database |
| MempoolBatch.RemoveConsistent | src/mempooltxdb.cpp:199-206 | the same for removing |
| MempoolBatch.RemoveRefines | src/mempooltxdb.cpp:199-206 | removing through the batch, with its cancellation of a pending add, is removing from the pending database |
| MempoolBatch.PendingTotals | src/mempooltxdb.cpp:215-227 | number and total size of what is pending differ from the database by exactly the batch's sums |
| MempoolBatch.CommitExact | src/mempooltxdb.cpp:208-268 | a commit leaves what was pending and right counters, although the 64-bit differences wrap when more is removed than added |
| MempoolBatch.PromisesNeeded | src/mempooltxdb.cpp:517-553 | the counters are right after the next commit if and only if an added transaction was not on disk and a removed one was there (or the batch itself has it) |
| MempoolBatch.FailedCommitRestores | src/mempooltxdb.cpp:246-251 | a failed write restores both counters |
| MempoolBatch.CommitRefines | src/mempooltxdb.cpp:487-494 | the worker's commit brings the reference to disk if it is written, and takes the reference back to what is on disk if not |
| MempoolBatch.FreshRefines | src/mempooltxdb.cpp:377-395 | a new database with an empty batch is the reference with nothing asked for |
| MempoolBatch.StepRefines | src/mempooltxdb.cpp:497-553 | after each task, with writes that succeed and writes that fail, the database is what the reference has on disk, the pending one what has been asked for, and the counters are right |
| MempoolBatch.RunRefines | src/mempooltxdb.cpp:556-571 | so in every state of every sequence of tasks from a new database |
| MempoolBatch.NothingLost | src/mempooltxdb.cpp:556-571 | while no write fails, everything asked for is kept in order and each synchronisation brings it to disk |
| MempoolBatch.XrefMeans | src/mempooltxdb.cpp:151-177 | in every run a stored cross-reference key was put there by a request, and since then it was neither replaced nor removed and no transaction on disk has changed |
| MempoolBatch.XrefStays | src/mempooltxdb.cpp:208-243 | and it stays as long as neither happens |
| MempoolBatch.CountersExact | src/mempooltxdb.cpp:208-268 | counters that fit into 64 bits are the number of keys and the sum of the sizes |
| MempoolBatch.SumOf | src/mempooltxdb.cpp:217-221 | the sum of the sizes added, modulo 2^64 |
| MempoolBatch.LessSumOf | src/mempooltxdb.cpp:222-225 | less the sizes removed, modulo 2^64 |
| MempoolBatch.AsyncTxDb.constructor | src/mempooltxdb.cpp:377-395 | an empty database and batch |
| MempoolBatch.AsyncTxDb.AddTx | src/mempooltxdb.cpp:189-197 | exactly the addition that `AddRefines` is about, on the object; the size assertion is demanded of the caller |
| MempoolBatch.AsyncTxDb.RemoveTx | src/mempooltxdb.cpp:199-206 | exactly the removal that `RemoveRefines` is about, on the object; the size assertion is demanded of the caller |
| MempoolBatch.AsyncTxDb.Differences | src/mempooltxdb.cpp:215-227 | the two differences that the commit adds to the counters |
| MempoolBatch.AsyncTxDb.Commit | src/mempooltxdb.cpp:208-268 | true exactly if the write succeeded or there was nothing to write; a failure changes nothing but the counters, and those not in the end |
| MempoolBatch.AsyncTxDb.CommitAndClear | src/mempooltxdb.cpp:487-494 | the batch is emptied also when the write fails |
| MempoolBatch.AsyncTxDb.Dispatch | src/mempooltxdb.cpp:497-555 | each kind of task does on the object what `StepRefines` is about |
| MempoolBatch.OneTask | src/mempooltxdb.cpp:189-206 | in every group that keeps the promises both size assertions hold at every task |
| MempoolBatch.AsyncTxDb.Work | src/mempooltxdb.cpp:556-571 | after a group of tasks, whichever of its writes fail, the database on disk is where the tasks one at a time would have left it and the batch is empty; if none fails it holds everything asked for |

## Left out

- CheckQueue.Queue.AddChecks: the caller keeps the number of unfinished checks below 2^32, because `nTodo` would wrap there.
- CheckQueue.RunSafe: destruction of a queue, thread interruption and the contents of `failedChecks` are not part of the machine.
- CheckQueuePool.CheckerPool.Lend: the joined token is one flag that may flip at any time; that it is the disjunction of two tokens is not modelled.
- PartialMerkleTree.WidthClosedForm: transaction counts and widths are unbounded, so 32-bit overflow of the width formula is not modelled.
- MerkleTree.Tree.GetMerkleRoot: the tree is one built by adding and merging; the sizes and heights stored beside the levels are not modelled.
- CoinsCache.RunRefines: which thread owns a cache, detaching and attaching, the best-block hash, and non-owning references to coins are not modelled; `HaveInputsLimited` follows another rule and is left out.
- CoinsCache.CoinsDB.GetCoin: one lookup is one step; the unlocking between cache and database in the source is not modelled.
- CoinsCache.CoinsDB.Flush: the early return when no block has arrived since the last flush is left out.
- AddrManSteps.AddKeeps: `Select_` and `GetChance` use floating point and unbounded random retries and are left out.
- AddrManSteps.RunSound: starts from a constructed manager, since `Clear` does not empty the two maps.
- AddrManStore.Unserialize: a file is its decoded fields; the byte encoding, and errors of the stream, are not modelled.
- AddrManLoad.LoadAny: of files that name an address twice, which `Serialize` never writes, there is only an example, `SameAddressBreaks`.
- AddrManager.Manager.GetAddr: the number of random draws is not modelled, only what is drawn.
- Compact.BlockProof: `GetBlockProofEquivalentTime` and the accumulated chain work are left out.
- Chain.BlockChain.GetLocator: lists blocks where the source lists their hashes; the step is unbounded, which matters only beyond 2^30 blocks.
- CuckooCache.Cache.constructor: the table size is a power of two given by its logarithm; the floating-point rounding that finds it is left out. Flags are plain values without memory ordering.
- RollingBloom.Filter.constructor: the numbers of hash functions and words are parameters; the floating-point sizing and the false-positive rate are left out.
- Base58.DecodeEncode: Base58Check, with its checksum, and the address types on top are left out.
- MempoolBatch.AsyncTxDb.Work: the queue's locking and the updater callbacks are left out; whether each write succeeds is given in advance.
- Disk and network access, logging, configuration, RPC, script evaluation, mempool policy and compact blocks are not modelled.
- Bloom filters for relaying, leaky buckets, limited maps and amounts would only add easy members.
