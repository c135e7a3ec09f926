# Verified models of Bitcoin Core components

This project models the most intricate self-contained logic of the node and proves, for all inputs, runs and
reachable states, what the code and its documentation promise. Every method is proved against a specification. Where
that specification follows the loop, as for the checksum steps, lemmas then say what it means.

- **Cluster linearization** (`feefrac`, `diagram`, `comparechunks`, `depgraph`, `linearization`, `chunking`,
  `linchunking`, `gathering`, `merge`, `ancestors`, `components`, `searchbounds`, `search`, `searchloop`, `finder`,
  `linearize`, `groups`, `grouplists`, `passes`, `grouppass`, `trees`, `treeshapes`, `mirror`, `movedleaf`,
  `passguarantees`, `postlinearize`, `fixlinearization`). A linearization is judged by its feerate diagram over real
  sizes. The branch-and-bound search discards no optimum, `Linearize` is never worse than its input and optimal when
  it says so, which a large enough budget makes it do; merging is as good as both inputs, and all three guarantees
  that `PostLinearize` documents hold.
- **UTXO cache** (`flaglist`, `coins`, `coinswrite`, `coinstack`, `coinrun`). A stack of write-back caches of any
  depth agrees with one plain map over every run.
- **Check queue** (`checkqueue`). One master and any number of workers as a state machine whose steps are the critical
  sections; it is never wrong and never stuck.
- **Headers synchronization** (`headers`, `headerssync`). The two-phase download with its commitments and lookahead
  buffer. Header hashes, the salted hasher, the permitted difficulty transitions and the block proof are parameters.
- **Address manager** (`addrtables`, `addrbook`, `addrman`, `addrcheck`, `addrrun`). Six redundant indexes stay
  consistent over every run and show what a plain book of entries and two tables would, and the consistency check
  decides just that. Bucket hashes and random draws are parameters.
- **256-bit arithmetic, block proof and block index** (`divmod`, `powers`, `limbs`, `arith`, `shifts`, `multiply`,
  `divide`, `compact`, `blockproof`, `skipheights`, `blockindex`, `chain`). Limb loops against the numbers they stand
  for, for any number of limbs; the skip list against the plain walk over parents, with a bound on its steps.
- **Text codecs** (`radix`, `base58`, `polymod`, `gf1024`, `bch`, `bech32charset`, `bech32`,
  `bech32vectors`). Radix conversion with its buffer bounds, and the checksum of BIP 173 (section "Bech32") and BIP 350
  (section "Bech32m") as a remainder over GF(32) that detects three errors, by its roots in GF(1024).

`options`, `sets` and `sequences` hold shared definitions. `dafny verify dfyconfig.toml` checks the whole project.

## Model

| member | source | states |
|---|---|---|
| `FeeFracs.GainTransitive` | src/util/feefrac.h:157-176 | The feerate comparison by cross-multiplication is transitive through any reference of positive size, strictly so when either step is strict. |
| `SearchFinders.RateBeforeOrder` | src/cluster_linearize.h:703-707 | The order used for sorting, feerate first, smaller size on a tie and then position, is total and transitive and never puts a higher feerate later. |
| `Diagrams.ChunkIsHull` | src/cluster_linearize.h:397-412 | Chunking a list gives non-increasing feerates, keeps the total, takes its boundaries from the cumulative points, and no cumulative point lies above the diagram: the chunks are the upper concave hull. |
| `Diagrams.ChunkPeak` | src/cluster_linearize.h:397-412 | Chunking keeps, for every reference feerate, the largest gain that any prefix reaches, and the total. |
| `Diagrams.DominatesIffDiagram` | src/util/feefrac.h:226-234 | For equal totals, having a prefix as good as every prefix of the other list at every feerate is the same as having a diagram that is nowhere below, at every real size. |
| `Diagrams.RaisedDiagram` | src/util/feefrac.h:226-234 | Raising fees without changing sizes lowers the diagram at no size. |
| `ChunkComparisons.CompareChunks` | src/util/feefrac.cpp:10-74 | The walk over two chunk lists returns equivalent, greater, less or unordered exactly as the two diagrams are each nowhere below the other, over all real sizes; the lists need not be sorted. |
| `ChunkComparisons.ComparePoint` | src/util/feefrac.cpp:28-68 | One round of the walk: comparing the next point with the other diagram keeps "nowhere higher so far" and "higher somewhere" right for both sides. |
| `ChunkComparisons.SlopeTells` | src/util/feefrac.cpp:38-59 | The sign of the slope comparison is the sign of the difference of the two diagrams at the next point, also beyond the end of one of them. |
| `DepGraphs.DepGraph.AddTransaction` | src/cluster_linearize.h:133-146 | A new unconnected transaction goes to the first free position; ancestors and descendants stay exact converses and transitively closed. |
| `DepGraphs.DepGraph.RemoveTransactions` | src/cluster_linearize.h:157-171 | The remaining positions keep their feerates, and their relations restricted to what remains; trailing holes are dropped. |
| `DepGraphs.DepGraph.AddDependencies` | src/cluster_linearize.h:177-198 | The relation grows by exactly the pairs (ancestor of a new parent, descendant of the child), and the graph stays consistent. |
| `DepGraphs.DependenciesAddedValid` | src/cluster_linearize.h:177-198 | Adding those pairs keeps all ancestor and descendant sets converse and closed, and makes the parents ancestors of the child. |
| `DepGraphs.DependenciesAddedLeast` | src/cluster_linearize.h:177-198 | The result is the least closed relation that contains the old one and the new dependencies. |
| `DepGraphs.GetReducedParents` | src/cluster_linearize.h:208-219 | The returned proper ancestors cover all proper ancestors and none of them is an ancestor of another. |
| `DepGraphs.DepGraph.Remap` | src/cluster_linearize.h:89-117 | Rebuilding an acyclic graph under a renaming of positions, from reduced parents only, gives the renamed graph exactly. |
| `Linearizations.FeeRateOf` | src/cluster_linearize.h:246-251 | The loop computes the combined fee and size of the set, independent of order. |
| `Components.GetConnectedComponent` | src/cluster_linearize.h:263-279 | The result contains the transaction, is connected, and nothing in it is related to the rest of `todo`. |
| `Components.IsConnected` | src/cluster_linearize.h:298-301 | True exactly for sets that cannot be cut in two without separating related transactions. |
| `Merging.AppendTopo` | src/cluster_linearize.h:313-323 | Sorting by number of ancestors appends a topological order of exactly the selected transactions. |
| `LinearizationChunkings.ChunkLinearization` | src/cluster_linearize.h:397-412 | The loop computes the chunk feerates of the linearization. |
| `LinearizationChunkings.LinearizationChunking.BuildChunks` | src/cluster_linearize.h:434-459 | The chunks are a fresh chunking of the not yet finished transactions. |
| `LinearizationChunkings.LinearizationChunking.MarkDone` | src/cluster_linearize.h:484-504 | After any call the remaining chunks equal a fresh chunking of what remains, also when only the first chunk is skipped. |
| `Chunking.DropFirstChunk` | src/cluster_linearize.h:489-497 | Removing exactly the first chunk leaves the other chunks as they were, which justifies the shortcut. |
| `LinearizationChunkings.LinearizationChunking.IntersectPrefixes` | src/cluster_linearize.h:515-539 | The result is the shortest non-empty intersection of the set with a chunk prefix whose feerate is at least that of the set: every shorter non-empty one is strictly below, and no part of the result cut out by a prefix is above it. |
| `LinearizationChunkings.IntersectionGatherable` | src/cluster_linearize.h:507-514 | Such an intersection of a set that is as good as the first chunk may be moved to the front. |
| `Gathering.Gather` | src/cluster_linearize.h:507-514 | Moving such a set to the front lowers the diagram nowhere. |
| `AncestorFinders.AncestorCandidateFinder.constructor` | src/cluster_linearize.h:566-590 | The cached ancestor-set feerates start out equal to the recomputed ones. |
| `AncestorFinders.AncestorCandidateFinder.MarkDone` | src/cluster_linearize.h:598-609 | After removing any set the cached ancestor-set feerates still equal the recomputed ones. |
| `AncestorFinders.AncestorCandidateFinder.FindCandidateSet` | src/cluster_linearize.h:628-641 | The result is the ancestor set of some remaining transaction, closed, and no remaining ancestor set is better. |
| `SearchBounds.BelowBest` | src/cluster_linearize.h:907-917 | A set compatible with a work item whose potential does not exceed the best feerate cannot beat the best: the bound discards no optimum. |
| `SearchBounds.JumpAhead` | src/cluster_linearize.h:838-858 | Including whole ancestor sets inside the potential set loses nothing: some extension is at least as good. |
| `SearchBounds.PotentialBound` | src/cluster_linearize.h:824-836 | Every compatible set has a feerate at most that of the potential set, or does not improve on the best. |
| `Searching.AddItem` | src/cluster_linearize.h:820-890 | Adding an item keeps, in the best or in what is queued, a set at least as good as every closed set the item stood for; the best never gets worse. |
| `Searching.SplitKeeps` | src/cluster_linearize.h:955-963 | Excluding a transaction with its descendants and including it with its ancestors together cover every closed set of the item. |
| `Searching.Split` | src/cluster_linearize.h:895-967 | Splitting or dropping an item loses no set that would beat the best. It costs no step exactly when the checks of its potential say that it cannot improve on the best, and then adds nothing; otherwise it costs one. |
| `Searching.ChooseSplit` | src/cluster_linearize.h:932-953 | The split position is the undecided ancestor of the first undecided transaction that minimizes the larger, then the smaller, of the remaining counts, the lowest position on a tie. |
| `SearchLoops.InitialQueue` | src/cluster_linearize.h:785-800 | One item per connected component: together they stand for every closed set, since of a set cut into components one part is as good as the set. |
| `SearchLoops.Search` | src/cluster_linearize.h:740-1009 | The result is closed within the remainder, no worse than the given set, found in at most the given steps; if fewer were used, no closed set of the remainder has a higher feerate; and fewer than 2^n steps are ever used for n remaining transactions, so every larger budget gives an optimum. |
| `SearchLoops.NoReallocation` | src/cluster_linearize.h:883-886 | The queue never outgrows the places reserved for it. |
| `SearchFinders.SearchCandidateFinder.constructor` | src/cluster_linearize.h:692-715 | The graph reordered by feerate is a faithful renaming of the given one. |
| `SearchFinders.SearchCandidateFinder.FindCandidateSet` | src/cluster_linearize.h:740-1009 | The search result holds for the original graph too, after mapping positions there and back, within fewer than 2^n steps for n transactions left. |
| `SearchFinders.SearchCandidateFinder.MarkDone` | src/cluster_linearize.h:1015-1021 | What is left shrinks by exactly the given set. |
| `Linearizing.UnbeatenGatherable` | src/cluster_linearize.h:1043-1118 | A closed set that nothing beats may be moved to the front of every linearization of the remainder. |
| `Linearizing.Linearize` | src/cluster_linearize.h:1043-1118 | The output is a topological permutation whose diagram is nowhere below the given linearization; the steps never exceed the budget; when reported optimal it is nowhere below any linearization; and it is reported optimal for every budget that is large enough, a bound given by the number of transactions alone. |
| `Merging.MergeLinearizations` | src/cluster_linearize.h:1325-1361 | The output is a topological permutation whose diagram is nowhere below either input. |
| `Merging.MergeRound` | src/cluster_linearize.h:1345-1351 | The intersection chosen in a round may be moved to the front of both linearizations. |
| `GroupLists.RepMerge` | src/cluster_linearize.h:1267-1280 | Merging two groups by relinking entries represents the list with the two groups concatenated. |
| `GroupLists.RepSwap` | src/cluster_linearize.h:1281-1293 | Swapping two groups by relinking three predecessors represents the list with the two groups exchanged. |
| `Passes.SoundMerge` | src/cluster_linearize.h:1267-1280 | Merging a group into a dependent group of higher feerate keeps groups connected, and every proper prefix of a group strictly worse than the group. |
| `Passes.SoundSwap` | src/cluster_linearize.h:1281-1293 | Swapping a group with an independent one of higher feerate keeps the order topological and lowers the diagram nowhere. |
| `Passes.GroupsAreChunks` | src/cluster_linearize.h:1137-1319 | The final groups are exactly the chunks of the result. |
| `GroupPasses.GroupsSound` | src/cluster_linearize.h:1137-1319 | A pass, as a function on group lists, lists its input once in topological order, by non-increasing feerate, and is nowhere below the input. |
| `Trees.GroupsTight` | src/cluster_linearize.h:1128-1130 | When descendants of a transaction are always related, every group a pass ends with is tight: no part of it that is closed under ancestors beats the whole. |
| `Trees.TightOptimal` | src/cluster_linearize.h:1128-1130 | Tight groups by non-increasing feerate are nowhere below any linearization. |
| `TreeShapes.OneChildTreelike` | src/cluster_linearize.h:229-240 | Having at most one reduced child each is the same as descendants of a transaction always being related. |
| `TreeShapes.ReducedParentsAre` | src/cluster_linearize.h:208-219 | What the reduction of parents returns is exactly the set of parents with nothing in between. |
| `Mirrors.OneParentTreelike` | src/cluster_linearize.h:1143-1146 | Having at most one parent each is that shape for the reversed graph a backward pass works on. |
| `MovedLeaves.GroupsInserted` | src/cluster_linearize.h:1131-1135 | A pass that starts with a transaction unrelated to the rest makes the same groups as without it, and one more for that transaction. |
| `MovedLeaves.MovedPass` | src/cluster_linearize.h:1131-1135 | A pass over an order that starts with a transaction is nowhere below the order that has it later. |
| `PassGuarantees.PassMoved` | src/cluster_linearize.h:1131-1135 | A backward pass is nowhere below the linearization that its input comes from by moving one transaction to the end. |
| `PassGuarantees.PassOptimal` | src/cluster_linearize.h:1143-1146 | A pass in the direction that suits the tree is nowhere below any linearization. |
| `PassGuarantees.RaisedAsGood` | src/cluster_linearize.h:1131-1135 | Being as good as a linearization implies being as good as it was before a fee was raised. |
| `PostLinearization.MergeSwap` | src/cluster_linearize.h:1254-1294 | The merge/swap loop on the linked entries ends with a sound list that only the current group may have left unsorted, on the way to the groups of the pass. |
| `PostLinearization.WriteBack` | src/cluster_linearize.h:1298-1317 | Following the links from the back writes the concatenated groups, or their reverse, into the array. |
| `PostLinearization.Pass` | src/cluster_linearize.h:1230-1318 | A pass overwrites the array with the groups of the pass as a function, read in its direction. |
| `PostLinearization.PostLinearize` | src/cluster_linearize.h:1137-1319 | The array ends as a topological permutation nowhere below the input, with connected chunks; optimal if every transaction has at most one child or every one at most one parent; and nowhere below a linearization from which the input comes by moving one transaction to the end with its fee possibly raised. |
| `FixingLinearizations.FixLinearization` | src/cluster_linearize.h:1365-1393 | Any permutation becomes topological, and is left unchanged exactly when it is topological already. |
| `FixingLinearizations.FixedIsLin` | src/cluster_linearize.h:1365-1393 | Inserting each transaction behind its last misplaced ancestor gives a topological permutation of the input. |
| `FlagLists.LinkLastRing` | src/coins.h:132-144 | Linking an entry before the sentinel appends it to the circular list. |
| `FlagLists.UnlinkRing` | src/coins.h:180-187 | Unlinking an entry takes exactly it out of the circular list. |
| `Coins.WriteUpOk` | src/coins.cpp:183-248 | Writing a truthful child entry into a truthful parent entry never hits the misapplied-FRESH error and leaves an entry that is truthful and shows the coin of the child. |
| `CoinWriting.WriteEntry` | src/coins.cpp:184-245 | Every branch of the write of one entry: the new parent entry, or the error, and nothing else changed. |
| `CoinWriting.NextAndMaybeErase` | src/coins.h:284-298 | The cursor moves to the next flagged entry in order while erasing or cleaning the current one. |
| `CoinWriting.BatchWrite` | src/coins.cpp:183-248 | The parent then shows what the child showed, with truthful flags; the error is unreachable; a child that is kept ends with no flags and without spent entries. |
| `CoinStacks.DbBatchWrite` | src/txdb.cpp:93-155 | The database then shows what the cache showed. |
| `CoinStacks.CoinsStack.FetchCoin` | src/coins.cpp:48-64 | Finds an entry exactly if this cache has one, or the coin is visible from here as unspent, or the lowest cache finds it in the database; caching it on the way changes no view at any level. |
| `CoinStacks.CoinsStack.GetCoin` | src/coins.cpp:66-70 | Returns the coin visible at that level, or nothing when it is spent there. |
| `CoinStacks.CoinsStack.AddCoin` | src/coins.cpp:72-111 | The top view changes at the one outpoint only, to the coin unless it is unspendable; lower views do not change. |
| `CoinStacks.CoinsStack.SpendCoin` | src/coins.cpp:130-150 | The top view becomes spent at the one outpoint and the coin that was visible is handed out; true is returned exactly if this cache has an entry, spent or not, or a coin can be fetched from below. |
| `CoinStacks.CoinsStack.Flush` | src/coins.cpp:250-259 | The level below shows what this one showed, no other view changes, this cache is empty, and no error occurs. |
| `CoinStacks.CoinsStack.Sync` | src/coins.cpp:261-272 | The level below shows what this one showed, no other view changes, unspent entries stay cached without flags, and neither error occurs. |
| `CoinStacks.CoinsStack.Uncache` | src/coins.cpp:274-287 | An entry without flags is gone afterwards, a flagged one stays, all other entries and caches are as before, and no view changes. |
| `CoinStacks.Sane` | src/coins.cpp:315-346 | What the sanity check asks for, except the recount of memory usage: only legal flag combinations, every linked entry flagged and pointed back at by both neighbours, and as many linked as flagged entries. |
| `CoinRuns.Step` | src/coins.cpp:48-287 | Each allowed operation on a stack of any depth agrees with the same operation on one plain map, and never fails. |
| `CoinRuns.Run` | src/coins.cpp:48-287 | Over every allowed sequence of operations the stack hands out exactly the coins a plain map would, and no error is reached. |
| `CheckQueues.NextBatchFits` | src/checkqueue.h:116-124 | A batch is never empty and never larger than the queue. |
| `CheckQueues.NextBatchShares` | src/checkqueue.h:116-121 | A batch is the equal share of the queue among the threads, cut to the batch size and never below one. |
| `CheckQueues.StepInv` | src/checkqueue.h:72-137 | Every critical section of every thread, and every check run outside the lock, keeps the invariant. |
| `CheckQueues.CompleteCorrect` | src/checkqueue.h:84-106 | The master returns nothing exactly when every check of the round ran and passed, and otherwise a result that a check of the same round produced. |
| `CheckQueues.MasterNeverForgotten` | src/checkqueue.h:88-109 | While the master waits without having been notified, some worker holds a batch and can move on. |
| `CheckQueues.NotStuck` | src/checkqueue.h:72-189 | In every reachable state some step is possible that returns the result, does work, or lets the master begin; only the master is woken, and only once it has been notified. |
| `CheckQueues.WorkBounded` | src/checkqueue.h:72-137 | Between two additions to the queue only a bounded number of steps can do work: each uses up some of the work left. |
| `CheckQueues.EveryRun` | src/checkqueue.h:72-189 | In every interleaving of one master and any number of workers the counters equal what they count, each result of a round is right, and from every state reached the master can be brought to return its result by finitely many steps, whatever the checks return and without waking anyone who was not notified. |
| `HeaderChains.OnePerPeriod` | src/headerssync.cpp:15-20 | Every window of k commitment periods contains at least k commitments. |
| `HeaderChains.BufferSpans` | src/headerssync.cpp:15-20 | A full lookahead buffer spans at least 23 commitments. |
| `HeadersSync.HeadersSyncState.ValidateAndProcessSingleHeader` | src/headerssync.cpp:178-214 | A header is accepted exactly if its difficulty is permitted and its commitment fits; the fields then describe the extended chain. |
| `HeadersSync.HeadersSyncState.ValidateAndStoreHeadersCommitments` | src/headerssync.cpp:140-176 | A message is accepted exactly if it connects and each header is; reaching the work threshold starts the second phase. |
| `HeadersSync.HeadersSyncState.ValidateAndStoreRedownloadedHeader` | src/headerssync.cpp:216-279 | A header is accepted exactly if it connects, its difficulty is permitted and a due commitment matches; the commitments left are those not yet compared. |
| `HeadersSync.HeadersSyncState.PopHeadersReadyForAcceptance` | src/headerssync.cpp:281-295 | Releases a prefix of the buffer with parents rebuilt, leaving a full buffer, or everything once the threshold is met. |
| `HeadersSync.HeadersSyncState.ProcessNextHeaders` | src/headerssync.cpp:69-138 | A message is processed successfully exactly if every header fits, in either phase; more is requested exactly after a full message, or when the first phase has met its work threshold, and never after the second has. Between messages the buffer and the commitments stay within their bounds; what is released before the threshold has 15009 accepted headers and 23 matched commitments above it; headers already presynced are never rejected. |
| `HeadersSync.HonestAgain` | src/headerssync.cpp:216-279 | Any stretch of the presynced chain, sent again after the stretch before it, meets the condition for acceptance. |
| `HeadersSync.ExtendedAgain` | src/headerssync.cpp:249-268 | Once the threshold is met, whatever connects with permitted difficulty is accepted, also after the commitments have run out. |
| `HeadersSync.ServeAgain` | src/headerssync.cpp:69-295 | A peer that serves the presynced headers again, divided into non-empty messages in any way, all but the last of them full, sees nothing rejected, and exactly the headers through the message that meets the work threshold are released, in order. |
| `AddrManagers.AddrManImpl.Create` | src/addrman.cpp:416-430 | A new entry gets an unused id, the next place in the random order and its index entries. |
| `AddrManagers.AddrManImpl.SwapRandom` | src/addrman.cpp:432-454 | Exchanging two places of the random order keeps positions and ids each other's inverse. |
| `AddrManagers.AddrManImpl.Delete` | src/addrman.cpp:456-471 | Removes exactly one entry from all indexes and counts; the asserts hold. |
| `AddrManagers.AddrManImpl.ClearNew` | src/addrman.cpp:473-489 | Empties a new slot and deletes its entry exactly when that was its last reference: the plain book is cleared at that slot and nothing else changes. |
| `AddrManagers.AddrManImpl.MakeTried` | src/addrman.cpp:491-548 | Moves an entry from all its new slots to its tried slot, sending the former occupant back to a new slot, as in the plain book; an occupied tried slot stays occupied; the asserts hold. |
| `AddrManagers.AddrManImpl.AddSingle` | src/addrman.cpp:550-624 | The six indexes change as one plain book of entries and two tables does, for every random draw: refreshing or creating the entry with its data, and giving it a place or not. The result says whether it got one. |
| `AddrBooks.AddedNew` | src/addrman.cpp:550-624 | An unknown routable address gets an entry, with the announced data and the aged time, exactly if its place is free or taken by an entry that is terrible or has other places; otherwise nothing changes but the id counter. |
| `AddrBooks.AddedKnown` | src/addrman.cpp:550-624 | A known address keeps its entry with services added and time refreshed; it gets another place exactly if the announcement is newer, the entry is untried and below eight places, the draw is favourable and the place is free or another, terrible entry's. |
| `AddrManagers.AddrManImpl.Good` | src/addrman.cpp:626-679 | The book afterwards has the success and its time recorded, and the entry promoted, or its collision noted while there is room, as specified; tried slots are never emptied. |
| `AddrBooks.SucceededMeans` | src/addrman.cpp:626-679 | A known address is promoted exactly if it is untried and, where occupants are to be tested first, its slot is free; then it is at its slot and nowhere in the new table, and a former occupant is untried again with one place. |
| `AddrManagers.AddrManImpl.Attempt` | src/addrman.cpp:693-711 | Exactly the entry of the address changes: its last try, and its attempts and last counted try when a failure counts and none was counted since the last success. |
| `AddrManagers.AddrManImpl.Connected` | src/addrman.cpp:877-894 | Exactly the entry of the address changes: its time, when it is older than twenty minutes. |
| `AddrManagers.AddrManImpl.SetServices` | src/addrman.cpp:896-910 | Exactly the entry of the address changes: its services. |
| `AddrManagers.AddrManImpl.ResolveCollisions` | src/addrman.cpp:912-973 | The book afterwards is the one in which each recorded collision has had its verdict: kept, dropped, or promoted in place of the occupant; all indexes stay consistent and no tried slot is emptied. |
| `AddrManagers.AddrManImpl.SelectTriedCollision` | src/addrman.cpp:975-1001 | Returns, for every draw, the occupant of the tried slot that the drawn collision wants, or forgets a collision whose entry is gone; that slot is occupied, so the lookup never uses an absent id. |
| `AddrManagers.AddrManImpl.GetAddr` | src/addrman.cpp:812-851 | Returns at most the allowed number of distinct entries, each with all its data and of the wanted network and quality, every such entry if fewer than allowed are returned, and changes nothing but the random order. |
| `AddrManagers.AddrManImpl.InsertNew` | src/addrman.cpp:599-624 | An entry gets the slot exactly if it is free or its occupant is another entry that is terrible, or has several places while this one has none; an entry left without any place is deleted; the book changes accordingly. |
| `AddrChecks.CheckAddrman` | src/addrman.cpp:1063-1166 | On any tables, consistent or not, the check returns 0 exactly if all its conditions hold and the key is not null, and any other code names a condition that fails. |
| `AddrChecks.ConsistentPasses` | src/addrman.cpp:1063-1166 | The invariant implies every condition that the consistency check tests, and that each network with an entry is counted, which the check itself would miss. |
| `AddrRuns.Run` | src/addrman.cpp:416-1001 | Every sequence of operations with positive times on an empty manager leaves the consistency check at 0, and the six indexes show the book that the same operations make of an empty one. |
| `AddrRuns.RunOn` | src/addrman.cpp:491-1001 | Over every run occupied tried slots stay occupied and ids are never reused. |
| `LimbArithmetic.Add` | src/arith_uint256.h:129-139 | Limb addition is addition modulo the width, and the 64-bit intermediate never wraps. |
| `LimbArithmetic.Increment` | src/arith_uint256.h:167-174 | Increment modulo the width. |
| `LimbArithmetic.Negate` | src/arith_uint256.h:71-78 | Complement and increment give the negative modulo the width. |
| `LimbArithmetic.Subtract` | src/arith_uint256.h:141-145 | Subtraction modulo the width, exact when nothing is borrowed. |
| `LimbArithmetic.CompareTo` | src/arith_uint256.cpp:102-111 | Compares the numbers that the limbs stand for. |
| `LimbArithmetic.Bits` | src/arith_uint256.cpp:156-168 | The number of binary digits of the value. |
| `LimbShifts.ShiftLeft` | src/arith_uint256.cpp:14-28 | Multiplies by a power of two modulo the width, for every shift. |
| `LimbShifts.ShiftRight` | src/arith_uint256.cpp:31-45 | Divides by a power of two, rounding down, for every shift. |
| `LimbMultiplication.MultiplyBy` | src/arith_uint256.cpp:48-57 | The product with a 32-bit number modulo the width. |
| `LimbMultiplication.Multiply` | src/arith_uint256.cpp:60-73 | The triangle of limb products is the product modulo the width; no 64-bit intermediate wraps. |
| `LimbDivision.Divide` | src/arith_uint256.cpp:76-99 | Shift-and-subtract division gives the exact quotient rounded down, and reports exactly the division by zero. |
| `CompactFormat.LargestBelow` | src/arith_uint256.cpp:195-216 | No compact number whose value is at most v has a larger value than the encoding of v. |
| `CompactFormat.CompactStable` | src/arith_uint256.cpp:195-216 | Encoding the decoded value again gives the same compact number. |
| `BlockProofs.SetCompact` | src/arith_uint256.cpp:175-193 | Decodes the magnitude modulo 2^256; the negative flag is set exactly for a set sign bit and non-zero value, the overflow flag exactly when the magnitude is at least 2^256. |
| `BlockProofs.GetCompact` | src/arith_uint256.cpp:195-216 | The limb code computes the compact encoding of its value. |
| `BlockProofs.DecodeEncode` | src/arith_uint256.cpp:175-216 | Decoding the encoding of any 256-bit value sets neither flag and gives the largest representable value not above it; encoding that again changes nothing. |
| `BlockProofs.GetBlockProof` | src/chain.cpp:126-139 | Returns floor(2^256 / (target + 1)) for every nBits, and 0 for negative, overflowing or zero targets; it never divides by zero. |
| `BlockIndexes.BlockTree.GetAncestor` | src/chain.cpp:88-113 | Following skip links ends at the block the plain walk over parents reaches, or nothing for heights outside the chain; with all links set, a walk from below height 2^l takes at most (l + 3)^2 steps. |
| `SkipHeights.WalkBound` | src/chain.cpp:75-113 | From any height below 2^l to any lower one, the rule that chooses between the skip link and the parent takes at most (l + 3)^2 steps. |
| `SkipHeights.LowestOne` | src/chain.cpp:75-75 | Clearing the lowest bit subtracts the largest power of two that divides the number. |
| `SkipHeights.SkipOdd` | src/chain.cpp:78-86 | The link of an odd height leads to one above its predecessor without its two lowest bits. |
| `BlockIndexes.BlockTree.BuildSkip` | src/chain.cpp:120-124 | Sets the skip link to the ancestor at the skip height. |
| `BlockIndexes.BlockTree.LastCommonAncestor` | src/chain.cpp:160-175 | Returns the highest block that is an ancestor of both. |
| `ActiveChains.CChain.SetTip` | src/chain.cpp:21-29 | Every slot is the ancestor of the new tip at its height, although the loop stops at the first slot that is right. |
| `ActiveChains.CChain.FindFork` | src/chain.cpp:55-64 | Returns the highest ancestor that the chain contains, or nothing if there is none. |
| `ActiveChains.RunChain` | src/chain.cpp:21-29 | However the tree grows, skip links are set and the tip moves, the chain holds exactly the ancestors of the last tip. |
| `ActiveChains.LocatorEntries` | src/chain.cpp:31-48 | The entries of a locator are the ancestors at exactly these distances: 0 to 11, then 9 + 2^(k - 10) for entry k, the last cut to the genesis block; so the heights fall strictly and the length is logarithmic. |
| `Radix.EncodeBufferSuffices` | src/base58.cpp:89-127 | size * 138 / 100 + 1 base-58 digits hold every number of that many bytes. |
| `Radix.DecodeBufferSuffices` | src/base58.cpp:53-55 | size * 733 / 1000 + 1 bytes hold every number of that many base-58 digits. |
| `Base58.MultiplyAdd` | src/base58.cpp:63-70 | The carry loop multiplies the number in the buffer and adds a digit; no carry is left, so the assert holds. |
| `Base58.EncodeBase58` | src/base58.cpp:89-127 | Computes the base-58 string: a 1 per leading zero byte, then the digits of the number, for every length. |
| `Base58.DecodeBase58` | src/base58.cpp:40-87 | Accepts exactly one word of symbols within white space that denotes at most the allowed number of bytes, and returns those bytes; every other string is refused. |
| `Base58.DecodeEncode` | src/base58.cpp:40-127 | Decoding inverts encoding for every byte string within the limit. |
| `Base58.EncodeDecode` | src/base58.cpp:40-127 | Every string that decodes encodes again to itself without the white space around it. |
| `Base58.Alphabet` | src/base58.cpp:20-38 | The symbols are the digits and letters other than 0, O, I and l, and their values ascend with their codes. |
| `PolyMods.PolyMod` | src/bech32.cpp:130-216 | The loop computes the run of checksum steps over the values. |
| `PolyMods.RemainderOf` | src/bech32.cpp:132-147 | The checksum is the remainder: the message polynomial over GF(32) is a multiple of the generator plus the packed residue. |
| `PolyMods.StepLinear` | src/bech32.cpp:178-213 | A step is linear over exclusive or. |
| `PolyMods.StepInjective` | src/bech32.cpp:178-213 | A step maps no non-zero 30-bit difference to zero. |
| `PolyMods.BurstDetected` | src/bech32.cpp:130-216 | Changing at most six consecutive values changes the checksum, at any length. |
| `ExtensionField.NextPowerMul` | src/bech32.cpp:95-116 | The recurrence that fills the table of powers multiplies by e: it commutes with multiplication in GF(1024). |
| `ExtensionField.Period` | src/bech32.cpp:38-44 | Multiplying by e comes back to any element after 1023 steps and to a non-zero element no earlier, so e is primitive. |
| `BchCodes.StepAt` | src/bech32.cpp:218-225 | At a root of the generator, a checksum step multiplies the value of the residue by the root and adds the symbol. |
| `BchCodes.RunAt` | src/bech32.cpp:218-225 | At a root of the generator, the residue of any word has the value of the word. |
| `BchCodes.Vandermonde` | src/bech32.cpp:172-175 | Three terms that vanish at three consecutive powers are all zero if their places differ by less than 1023. |
| `BchCodes.ThreeDetected` | src/bech32.cpp:139-142 | Changing one, two or three values within a window of 1023 changes the checksum, at any length and from any state. |
| `Bech32.CheckCharacters` | src/bech32.cpp:287-309 | Lists, in order, exactly the positions of unprintable characters and of letters of another case than the first letter; there are none exactly for printable strings that are not of mixed case. |
| `Bech32.ChecksumUnique` | src/bech32.cpp:327-353 | Exactly one six-value suffix makes a message verify under an encoding: the created checksum. |
| `Bech32.BurstRejected` | src/bech32.cpp:327-339 | With the human-readable part unchanged, an error confined to six consecutive values never verifies under the same constant. |
| `Bech32.ThreeRejected` | src/bech32.cpp:327-339 | With the human-readable part unchanged, one to three wrong values within a window of 1023 never verify under the same constant. |
| `Bech32.Encode` | src/bech32.cpp:358-371 | Builds the human-readable part, the separator, the data and its checksum. |
| `Bech32.Decode` | src/bech32.cpp:374-400 | Takes a string apart at its last separator and accepts it exactly as specified, for any length limit. |
| `Bech32.DecodeEncode` | src/bech32.cpp:358-400 | Decoding an encoded string returns the encoding, the human-readable part and the data exactly when that part is printable and not empty and the string fits the limit, and is invalid otherwise. |
| `Bech32.EncodeDecode` | src/bech32.cpp:358-400 | Every string that decodes is, up to letter case, the encoding of the result. |
| `Bech32Vectors.RisingPublished` | src/bech32.cpp:23-34 | The published string of BIP 173 that holds the symbols 0 to 31 is their Bech32 encoding. |
| `Bech32Vectors.FallingPublished` | src/bech32.cpp:118-125 | The published string of BIP 350 that holds the symbols 31 to 0 is their Bech32m encoding. |

## Left out

- SearchLoops.Search: where the code draws a random bit to swap the first two items the model allows either outcome.
- SearchFinders.SearchCandidateFinder.constructor: `std::sort` is modelled by insertion with the same comparison.
- FeeFracs.GainTransitive: fees and sizes are unbounded integers, so overflow of 32- and 64-bit fields is not modelled.
- CoinStacks.CoinsStack.AddCoin: the exception for overwriting an unspent coin is a precondition, memory-usage counters,
  the best block hash and failing batch writes are not modelled, and the stack of caches is one object whose caches are
  values, so aliasing between cache objects is not captured.
- CheckQueues.EveryRun: any waiting worker may wake at any time, so notifications of workers carry no information; the
  shutdown flag and the destructor are not modelled.
- HeadersSync.HeadersSyncState.ProcessNextHeaders: the limit on commitments is a parameter instead of being computed
  from clock and block time, and logging and locators are not modelled.
- AddrChecks.CheckAddrman: entries and slots are visited in any order, so of several failing conditions any may be
  named.
- AddrManagers.AddrManImpl.GetAddr: which entries are drawn is arbitrary; `Select`, `GetEntries`, `FindAddressEntry`,
  serialization and the floating-point selection chance are not modelled.
- ActiveChains.LocatorEntries: heights and the step are unbounded integers, so heights near 2^31 are not captured.
- LimbDivision.Divide: the exception for division by zero is an out-parameter. `getdouble`, hexadecimal conversion and
  the conversions to and from `uint256` are not modelled.
- Base58.DecodeBase58: lengths are unbounded integers; the hashed variant of Base58 is not modelled.
- BchCodes.ThreeDetected: that four errors within 89 characters are detected rests on an exhaustive search and is not
  proved.
- Bech32.Encode: the assertion on upper case in the human-readable part is a precondition; characters above 127 are
  taken as signed, as on the usual platforms. Locating errors in a string, with its tables of logarithms, is not
  modelled.
- `FindEarliestAtLeast`, `GetBlockProofEquivalentTime`, `AddCoins`, `AccessByTxid` and the thread start-up of the check
  queue would only add easy members.
- The block proof of headers and the consensus rule for difficulty changes are parameters of the headers download.
