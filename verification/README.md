# A verified model of the P2P exchange

This project models the parts of the peer-to-peer exchange that carry its guarantees and proves
those guarantees for every input, every call and every reachable state:

- the order-matching engine of the node (`node/internal/match/engine.go`), its twin in the browser
  (`frontend/src/p2p/matchEngine.ts`) and a proof that the two trade alike;
- the follower side of order-book synchronisation and the two-phase vote on match proposals, as a
  protocol of nodes, messages and faulty members;
- the Merkle trees built by the reward tools and the verifier that checks their proofs on chain;
- the contracts that hold money: contribution rewards, fee distribution and the swap pool;
- the relay's and the API's rate limiters, and the trimmed-mean settlement price.

Where the original changes state step by step, so does the model: classes with the original's
fields, loops over arrays and maps, methods with the original's branches in the original's order.
Each method is proved equal to a function of the old state, and the laws are proved about those
functions and about runs of them.  The modules named `…Terms` say what the functions amount to without
using them: which calls go through, and which amounts, orders and votes result, by the inequalities
and the order these have to satisfy.

| files | contents |
|---|---|
| `Orders`, `Matching`, `Books`, `Batch`, `Runs`, `Engine` | priority order and in-place sorting, the fill loop and its optimality, the operations on books, batches, whole runs, the engine class |
| `BookTerms`, `MatchTerms` | what each operation and each trade comes to, in the fields of the orders |
| `Browser`, `Bisimulation`, `BookSync` | the browser engine and its index, both engines side by side, snapshots and followers |
| `Consensus`, `ConsensusTerms`, `ConsensusSafety`, `ConsensusContent`, `ConsensusLeaders` | one node of the vote, its calls counted in voters, all nodes with a network, what is committed under an ID, whose proposals count |
| `MerkleTree`, `Merkle` | trees over any symmetric node function, then over 32-byte hashes and the tools' leaves |
| `Sums`, `RewardLedger`, `RewardClaims`, `LateScores`, `RewardTerms`, `RewardScores`, `ScoreTerms`, `ContributorReward` | sums over mappings, the reward accounts, repeated claims, scores set late, what is paid and what is kept in reserve, score formulas, the contract class |
| `FeeShares`, `FeeTerms`, `FeeDistributor`, `ConstantProduct`, `SwapTerms`, `LiquidityTerms`, `PoolRuns`, `AMMPool` | fee shares, the swap formula, what is charged and paid, runs of the pool, and the two contract classes |
| `PeerLimiter`, `PeerLimiterTightness`, `TokenBucket`, `TrimmedMean`, `Options` | rate limits over traces and when they fail, settlement prices, shared types |

Conventions. Prices and amounts are integers in a fixed unit; a decimal string that may be empty is
an `Option`. Buying and selling are one definition: `Rank` turns a price around for bids, so every
theorem about a side covers both. Times, the outcome of signature checks and the outcome of token
transfers are parameters. A call that reverts returns `None` or `false` and leaves the state alone.
`uint256` and `uint64` limits and wrap-around are written out. The hash is an arbitrary function.

Where code and comments disagree the code is followed: the fee distributor's comments speak of 5%
for the developer where the constant is 1%; `insertOrderSorted` has an unused binary-search index
and a stray closing brace (line 286) and is read as the bubbling loop of lines 270-284; the token
bucket's `window` (server.go line 72) is read as the limiter's own field.

## Model

| member | source | states |
|---|---|---|
| Orders.StableSortUnique | node/internal/match/engine.go:344-360 | a stable sort by price and time is unique: sorted sequences with the same orders in the same arrival order at every price and time are equal |
| Orders.StableSortIsInsertAll | node/internal/match/engine.go:209-285 | a sequence is the stable sort of some orders exactly when inserting them one by one produces it |
| Orders.SortedIsFixed | node/internal/match/engine.go:344-360 | sorting a side already in order changes nothing |
| Orders.InsertSorted | node/internal/match/engine.go:261-285 | insertion keeps a side in price-time order |
| Orders.InsertTier | node/internal/match/engine.go:261-285 | a new order goes behind all resting orders of equal price and time, and disturbs none of them |
| Orders.InsertAt | node/internal/match/engine.go:270-284 | the insertion point is the first place whose order yields to the new one |
| Orders.BubbleDown | node/internal/match/engine.go:270-284 | swapping neighbours in place carries the last order of a prefix to its insertion point and leaves the rest of the array alone |
| Orders.InsertOrderSorted | node/internal/match/engine.go:261-285 | the in-place insertion of the last order, also on an empty side |
| Orders.SortOrdersOptimized | node/internal/match/engine.go:344-360 | the array ends as the stable sort of what it held |
| Orders.SortSide | node/internal/match/engine.go:337-339 | a whole side sorted through that in-place sort |
| Matching.FillIsMaximal | node/internal/match/engine.go:436-549 | what is filled is the smaller of the taker's remainder and all that makers at compatible prices offer |
| Matching.MatchConserves | node/internal/match/engine.go:436-549 | trade amounts add up to the taker's fill and to the fall in the side's remainder |
| Matching.MatchConsumesPrefix | node/internal/match/engine.go:436-549 | trades run down the side in priority order; consumed makers form a prefix, all of it filled but possibly the last |
| Matching.MatchRunsOut | node/internal/match/engine.go:436-440 | the fill loop stops only when the taker is filled, the side is empty or the best price does not cross |
| Matching.TradesWithinLimit | node/internal/match/engine.go:442-446 | no trade is at a price worse than the taker's limit |
| Matching.MatchKeepsSide | node/internal/match/engine.go:408-553 | the side stays sorted, positive and free of repeated IDs, and no order appears from nowhere |
| Matching.TradesAreGreedy | node/internal/match/engine.go:436-549 | the quote amounts of the trades are those of taking from the front |
| Matching.GreedyIsOptimal | node/internal/match/engine.go:408-549 | taking from the front costs a buyer least and pays a seller most among all allocations of the same quantity |
| Matching.MatchIsOptimal | node/internal/match/engine.go:408-549 | a match fills the maximal quantity, and no allocation of that quantity to the opposite side has a better total |
| Books.RemoveFirstCuts | node/internal/match/engine.go:390-405 | a cancel cuts out exactly the first position with the ID |
| Books.RemoveFirstKeeps | node/internal/match/engine.go:390-405 | a cancel keeps a side sorted and positive |
| Books.AddKeepsInvariant | node/internal/match/engine.go:209-258 | adding keeps every book in order, positive and, where they were, with unique IDs; an accepted order rests in its book |
| Books.ReplaceKeepsInvariant | node/internal/match/engine.go:289-341 | bulk replacement leaves every book in order and positive, and IDs stay unique if and only if the orders it keeps from the snapshot have different ones |
| Books.MatchKeepsInvariant | node/internal/match/engine.go:408-553 | matching keeps every book in order, positive and with unique IDs, for every taker |
| Books.MatchConservation | node/internal/match/engine.go:408-567 | the taker's fill is the traded volume and the most there is to fill; the opposite side falls by exactly that if and only if the taker gets to every order resting there with the status "filled" |
| Books.ConservesForEveryTaker | node/internal/match/engine.go:408-602 | matches against one side of a pair conserve for every taker if and only if no order rests there with the status "filled" |
| Books.MarkedOrderIsLost | node/internal/match/engine.go:209-258 | such an order can be added, and a taker that does not reach it makes it vanish untraded |
| Books.MatchLeavesNothingToTrade | node/internal/match/engine.go:408-602 | after a whole match the taker is filled, the trimmed side is empty or its best price does not cross |
| Books.MatchIsLocal | node/internal/match/engine.go:408-567 | a match touches only the taker's pair, and never the ID index, whose entries may go stale |
| BookTerms.BooksInPriceTimeOrder | node/internal/match/engine.go:209-602 | in every state of a run bids stand from the highest price down, asks from the lowest up, equal prices by time, each order with something left |
| BookTerms.AddedOnTheseTerms | node/internal/match/engine.go:209-258 | AddOrder takes exactly the orders that name everything, are no later than their expiry and have something left; the remainder comes to rest behind all orders ahead of it by price and time, an order of the same ID is gone, a full side loses its last order, the index files the ID |
| BookTerms.NotAdded | node/internal/match/engine.go:209-258 | what AddOrder refuses, and that an order with nothing left still removes its older copy |
| BookTerms.ReplacedOnTheseTerms | node/internal/match/engine.go:289-341 | the replaced book holds each identified, unexpired order of the snapshot with something left, as often as it occurs, in price-time order, and nothing else |
| BookTerms.ReplacedIndex | node/internal/match/engine.go:289-341 | the index then files the snapshot's resting IDs under the pair, forgets the pair's earlier ones and keeps the rest |
| BookTerms.NotReplaced | node/internal/match/engine.go:289-292 | without a pair nothing happens |
| BookTerms.CancelledOnTheseTerms | node/internal/match/engine.go:363-405 | where a cancel looks, when it reports success, and what it leaves of books and index, with and without a pair |
| MatchTerms.TradeTerms | node/internal/match/engine.go:408-549 | trade i is with the i-th resting order, for what the orders before it leave to fill as far as price and remainder allow; the maker of an ask gives the amount in token0 for amount times price in token1, the maker of a bid the reverse; all IDs, traders and the price are those of the two orders |
| MatchTerms.MatchLeaves | node/internal/match/engine.go:408-602 | every order of the side traded against keeps what was not taken, marked orders leave both sides, the taker is filled exactly when nothing is left of it, and nothing else changes |
| MatchTerms.NothingMatched | node/internal/match/engine.go:408-427 | an incomplete taker changes nothing, one with nothing to fill only makes sure its pair has a book |
| MatchTerms.TakerIsPaid | node/internal/match/engine.go:442-549 | over a whole match a buyer receives the traded volume of token0 and pays the sum of amount times price in token1, a seller the reverse, and no other token moves |
| Batch.BatchOrderUnique | node/internal/match/engine.go:574-584 | when takers with the same pair, time and ID are equal orders, they can be sorted in only one way |
| Batch.OneBatchOrderIff | node/internal/match/engine.go:574-584 | all admissible results of the sort coincide if and only if any two takers with the same key are equal orders |
| Batch.InsertTaker | node/internal/match/engine.go:574-584 | one taker is put in its place among sorted ones, none lost |
| Batch.SortTakers | node/internal/match/engine.go:574-584 | the sort returns the same takers in the order of pair, time and ID, spelled out in BatchOrderIsByTurn |
| Batch.LexIsDictionary | node/internal/match/engine.go:574-584 | strings compare as in a dictionary |
| Batch.BatchOrderIsByTurn | node/internal/match/engine.go:574-584 | a sequence may result from the sort if and only if it is the takers rearranged with pairs ascending, within a pair by creation time, and at equal times by ID |
| Batch.EachTakerIsMatched | node/internal/match/engine.go:585-591 | each taker is matched against what the ones before it left, and its trades follow theirs |
| Batch.EarlierTakersTradeFirst | node/internal/match/engine.go:571-592 | in the trades of a batch a taker of a pair never trades after one created later, and pairs come in ascending order |
| Batch.BatchIsOrderIndependent | node/internal/match/engine.go:571-592 | when takers with the same key are equal orders, any permutation gives the same trades and the same books, whatever sort is used |
| Batch.BatchProjects | node/internal/match/engine.go:585-591 | the trades and the book of one pair are those of matching that pair's takers alone |
| Batch.BatchIsPerPair | node/internal/match/engine.go:571-592 | and so for a whole unsorted batch |
| Runs.EveryStateIsValid | node/internal/match/engine.go:209-602 | after any run of adds, cancels, replacements and matches every book is in price-time order and holds only orders with something left |
| Runs.IdsDistinctIff | node/internal/match/engine.go:209-602 | IDs are unique within each pair in every state of a run if and only if every bulk snapshot of the run leaves each ID to rest once |
| Runs.MatchesOfARunConserve | node/internal/match/engine.go:209-602 | if no order brought in by a run is marked filled, every match of the run conserves quantity |
| Runs.AddAllLoads | node/internal/match/engine.go:209-258 | adding well-formed orders to an empty pair builds the stable sort of each side |
| Runs.BulkEqualsIncremental | node/internal/match/engine.go:209-360 | replacing an empty book in bulk gives the same engine state as adding the orders one by one |
| Engine.Engine.constructor | node/internal/match/engine.go:46-60 | a new engine has no books, an empty index, zero counters and no filed periods |
| Engine.Engine.AddMatchStats | node/internal/match/engine.go:108-124 | trades are counted and their positive amounts added, only while a period is set |
| Engine.Engine.RemoveOrderFromBook | node/internal/match/engine.go:390-405 | the cancel loop over both sides of a book |
| Engine.Engine.BuildBook | node/internal/match/engine.go:303-340 | a snapshot's orders filtered, reset to their remainders and sorted |
| Engine.Engine.ForgetBook | node/internal/match/engine.go:295-303 | index entries of the replaced book's orders are deleted |
| Engine.Engine.EnsurePair | node/internal/match/engine.go:139-145 | creates an empty book only where there is none |
| Engine.Engine.GetOrderbook | node/internal/match/engine.go:148-167 | returns copies of both sides |
| Engine.Engine.AppendSorted | node/internal/match/engine.go:240-250 | appending and bubbling, cut at the cap, is the specified addition to a side |
| Engine.Engine.AddOrder | node/internal/match/engine.go:209-258 | the whole new state and result of adding, every rejection included |
| Engine.Engine.ReplaceOrderbook | node/internal/match/engine.go:289-341 | the whole new state of a bulk replacement, index included |
| Engine.Engine.RemoveOrder | node/internal/match/engine.go:363-388 | the cancel relation, with the pair given, found in the index, or searched for in any order |
| Engine.Engine.FillSide | node/internal/match/engine.go:436-549 | the fill loop yields exactly the trades, side and remainder of the recursive definition |
| Engine.Engine.TrimFilled | node/internal/match/engine.go:594-602 | the trimming loop |
| Engine.Engine.Match | node/internal/match/engine.go:408-567 | new books, trades and taker of a match, and the period counters moved by its trades |
| Engine.Engine.MatchBatch | node/internal/match/engine.go:571-592 | a batch returns its takers with pairs ascending, earlier ones first and equal times by ID, matched in that order, and the period counters move by all its trades |
| Engine.Engine.SetCurrentPeriod | node/internal/match/engine.go:63-81 | a new period files the counters of the old one and starts from zero |
| Engine.Engine.GetPeriodStats | node/internal/match/engine.go:94-105 | reads live counters for the current period and filed ones otherwise |
| Engine.MatchVolumeCounts | node/internal/match/engine.go:108-124 | every amount a match trades counts towards the volume statistics |
| Engine.TallyCounts | node/internal/match/engine.go:108-124 | while a period is set the uint64 counter moves by the number of trades and the volume by their amounts |
| Engine.TalliedMore | node/internal/match/engine.go:108-124 | counting a batch match by match is counting all its trades, also where the uint64 counter wraps |
| Browser.IndexIffOneResting | frontend/src/p2p/matchEngine.ts:25-71 | the index maps an ID to a pair if and only if exactly one order with that ID rests there |
| Browser.SubmitKeepsExact | frontend/src/p2p/matchEngine.ts:25-52 | adding keeps the index exact if and only if the ID is not filed under the empty pair name |
| Browser.CancelKeepsExact | frontend/src/p2p/matchEngine.ts:58-71 | cancelling keeps it exact and forgets the ID, unless that is filed under the empty pair name |
| Browser.TakeKeepsExact | frontend/src/p2p/matchEngine.ts:125-156 | matching keeps it exact through partial and full fills |
| Browser.EnsureKeepsExact | frontend/src/p2p/matchEngine.ts:187-192 | creating a book keeps it exact |
| Browser.EmptyPairDuplicates | frontend/src/p2p/matchEngine.ts:25-30 | an order without a pair, on either side, leaves the index exact when added once and not when added twice |
| Browser.EveryIndexIsExact | frontend/src/p2p/matchEngine.ts:25-231 | the index is exact in every state of a run if and only if no call submits an ID while it is filed under the empty pair name |
| Browser.NamedPairsNeverStick | frontend/src/p2p/matchEngine.ts:25-71 | runs whose orders all name a pair never do that |
| Browser.TradesAreLabelled | frontend/src/p2p/matchEngine.ts:93-105 | trades are numbered from zero in order and say which side the makers were on |
| Browser.MatchEngine.GetOrCreateOrderBook | frontend/src/p2p/matchEngine.ts:187-192 | the pair's book, created empty when missing |
| Browser.MatchEngine.AddOrder | frontend/src/p2p/matchEngine.ts:25-52 | removes an older copy, pushes, sorts and indexes |
| Browser.MatchEngine.RemoveOrder | frontend/src/p2p/matchEngine.ts:58-71 | filters both sides and deletes the entry |
| Browser.MatchEngine.MatchSide | frontend/src/p2p/matchEngine.ts:77-118 | the loop that shrinks and shifts makers, entry by entry |
| Browser.MatchEngine.Match | frontend/src/p2p/matchEngine.ts:125-156 | the new state and trades of a match |
| Browser.MatchEngine.GetOrder | frontend/src/p2p/matchEngine.ts:161-175 | the first order with the ID, bids before asks, in the book the index names; with an exact index one is found if and only if the ID rests under a named pair |
| Browser.MatchEngine.Clear | frontend/src/p2p/matchEngine.ts:227-231 | empties books and index |
| Bisimulation.SidesBisimilar | frontend/src/p2p/matchEngine.ts:77-118 | on related sides both fill loops make the same trades and leave related sides |
| Bisimulation.MatchSideBisimilar | node/internal/match/engine.go:408-602 | one taker against related opposite sides always makes the same trades, and the sides left are related if and only if it gets to every order resting there with the status "filled" |
| Bisimulation.MatchBisimilar | node/internal/match/engine.go:408-602 | the same for whole books: the trades agree, and the books stay related if and only if the match leaves no marked order on either side for the node to drop |
| Bisimulation.UnmarkedMatchBisimilar | node/internal/match/engine.go:408-602 | so related books without marked orders stay related |
| Bisimulation.AddBisimilar | node/internal/match/engine.go:209-258 | adding keeps books related if and only if the side added to is not full, as only the node has a cap |
| Bisimulation.RemovalBisimilar | frontend/src/p2p/matchEngine.ts:58-71 | cancelling removes the same order from both |
| Bisimulation.StepBisimilar | node/internal/match/engine.go:209-602 | one request keeps the engines in agreement if and only if it neither names an ID that rests under another pair, nor overflows a side, nor strands a marked order |
| Bisimulation.SessionsBisimilar | node/internal/match/engine.go:209-602 | in a session of any length on any pairs both engines trade alike and hold related books throughout if and only if no request does one of those three things |
| Bisimulation.ReuseDiverges | frontend/src/p2p/matchEngine.ts:25-71 | a request that names such an ID leaves that pair's books unrelated: the browser drops the old order, the node keeps it |
| Bisimulation.DivergenceShows | node/internal/match/engine.go:209-602 | each of the three leaves the books of some pair unrelated |
| Bisimulation.GoCancelIsRemoval | node/internal/match/engine.go:363-388 | the cancel used in sessions is RemoveOrder with the pair given |
| BookSync.SnapshotIsIds | node/internal/match/orderbook_sync.go:348-363 | for IDs that all hold the same number of dashes two snapshots hash the same data exactly when they list the same IDs in the same order |
| BookSync.DashesAreAmbiguous | node/internal/match/orderbook_sync.go:348-363 | for any two different numbers of dashes, an ID of each listed in either order gives one text |
| BookSync.ToldApartIffOneFormat | node/internal/match/orderbook_sync.go:348-363 | for any set of admitted numbers of dashes in IDs, all books are told apart by their text if and only if at most one number is admitted |
| BookSync.SnapshotSpelledOut | node/internal/match/orderbook_sync.go:348-358 | the text is pair, number of bids, number of asks, bid IDs and ask IDs, joined by dashes |
| BookSync.DecimalSpells | node/internal/match/orderbook_sync.go:350 | numbers are written in decimal digits without leading zeros |
| BookSync.AtPriceAddsUp | node/internal/match/orderbook_sync.go:291-328 | the quantity at a price adds up, order by order, what each order there has left |
| BookSync.RemaindersAreNotCompared | node/internal/match/orderbook_sync.go:348-363 | amounts play no part in the hash |
| BookSync.FollowerConverges | node/internal/match/orderbook_sync.go:207-224 | a follower that applies a leader's snapshot holds the same orders in the same places, so its hash is the leader's |
| BookSync.SyncTwice | node/internal/match/orderbook_sync.go:153-224 | a follower out of step applies the snapshot, and the same snapshot then finds it in sync |
| BookSync.OrderbookSyncManager.SnapshotHash | node/internal/match/orderbook_sync.go:348-363 | the string built in the loop is the specified data |
| BookSync.OrderbookSyncManager.HandleOrderbookRequest | node/internal/match/orderbook_sync.go:254-282 | only the leader answers, with its books and their hash |
| BookSync.OrderbookSyncManager.ApplySync | node/internal/match/orderbook_sync.go:207-224 | replaces the book, marks the pair synced at that time and clears its conflicts, if it had any |
| BookSync.OrderbookSyncManager.Resolve | node/internal/match/orderbook_sync.go:179-201 | counts the mismatch, then takes the books received or asks for them |
| BookSync.OrderbookSyncManager.CountConflict | node/internal/match/orderbook_sync.go:180-193 | counts a mismatch; above ten the node reports a partition |
| BookSync.OrderbookSyncManager.HandleSync | node/internal/match/orderbook_sync.go:153-204 | which branch each message takes and the whole state it leaves; a message from anyone but the leader changes nothing |
| BookSync.Aggregate | node/internal/match/orderbook_sync.go:291-345 | one level per price with something left, best first, each with the sum at that price |
| BookSync.OrdersToLevelSnapshot | node/internal/match/orderbook_sync.go:285-345 | both sides aggregated; nothing for an empty pair |
| Consensus.ElectionsRotate | node/internal/match/consensus.go:111-129 | the k-th election picks the member k places on, round and round |
| Consensus.CommitSticks | node/internal/match/consensus.go:192-332 | a committed proposal stays committed under every handler, except exactly when the leader proposes the same ID again |
| Consensus.ConsensusEngine.ElectLeader | node/internal/match/consensus.go:111-129 | one election |
| Consensus.ConsensusEngine.OpenProposal | node/internal/match/consensus.go:213-223 | a proposal is recorded uncommitted, and votes that came before it are dropped |
| Consensus.ConsensusEngine.ProposeMatch | node/internal/match/consensus.go:154-189 | only the leader proposes, in its own name, and the proposal opens without votes |
| Consensus.ConsensusEngine.HandleProposal | node/internal/match/consensus.go:192-237 | a proposal is taken up exactly when it has an ID and an order and names the current leader, and answered by a prevote; any other one changes nothing and is not answered |
| Consensus.ConsensusEngine.HandleVote | node/internal/match/consensus.go:240-267 | recording a vote and what the thresholds then do |
| Consensus.ConsensusEngine.CheckPreVoteThreshold | node/internal/match/consensus.go:277-308 | a prevote quorum leads to the node's own precommit |
| Consensus.ConsensusEngine.CheckPreCommitThreshold | node/internal/match/consensus.go:311-332 | a precommit quorum commits, once |
| ConsensusSafety.HonestInQuorum | node/internal/match/consensus.go:335-342 | every quorum holds at least f+1 honest members |
| ConsensusSafety.QuorumsOverlap | node/internal/match/consensus.go:335-342 | two quorums share at least 2q-n members, f+1 when n = 3f+1 |
| ConsensusSafety.OverlapNeedsThreeFPlusOne | node/internal/match/consensus.go:335-342 | any two quorums share f+1 members if and only if n = 3f+1 |
| ConsensusSafety.RunKeeps | node/internal/match/consensus.go:154-332 | in every run with faulty members, votes counted by honest nodes were sent, and commits are backed by quorums |
| ConsensusSafety.CommitsAreSafe | node/internal/match/consensus.go:192-332 | an honest node commits an ID at most once, f+1 honest nodes prevoted it, and for n = 3f+1 any two commit quorums share f+1 nodes |
| ConsensusContent.ValidationsAreDeliveries | node/internal/match/consensus.go:192-237 | a proposal counts as validated by an honest node exactly when it was delivered there while the proposer it names was that node's leader |
| ConsensusContent.CommitsAreValidated | node/internal/match/consensus.go:192-354 | behind every commit stand f+1 honest nodes that were each handed a proposal with its ID by their leader of the time |
| ConsensusContent.ReproposalCommitsAgain | node/internal/match/consensus.go:154-332 | a leader that proposes again under a committed ID takes its flag down, and any quorum of precommits commits the ID once more |
| ConsensusContent.OneContentAgrees | node/internal/match/consensus.go:192-354 | when no ID comes with two contents, the content of every commit was validated by f+1 honest nodes, and commits under one ID agree |
| ConsensusContent.TwoContentsCommit | node/internal/match/consensus.go:192-332 | when two acceptable proposals share an ID, some run commits one at one honest node and the other at another, the first validated nowhere else |
| ConsensusContent.AgreementIffOneContent | node/internal/match/consensus.go:154-354 | agreement on validated contents holds in all runs if and only if no two acceptable proposals share an ID |
| ConsensusLeaders.OnlyTheLeaderIsHeard | node/internal/match/consensus.go:192-237 | a proposal that does not name the leader leaves the node as it was and is not answered; one that does is put on file and prevoted |
| ConsensusLeaders.ValidatedFromLeader | node/internal/match/consensus.go:344-354 | over runs: validated if and only if delivered while it named the node's leader |
| ConsensusLeaders.PrevotedForLeader | node/internal/match/consensus.go:192-237 | over runs: an ID is prevoted by an honest node if and only if its leader of the time delivered a proposal under it |
| ConsensusLeaders.FiledFromLeader | node/internal/match/consensus.go:154-237 | whatever a node has on file its leader of the time delivered, or it made itself as leader |
| ConsensusLeaders.LeaderIsInTurn | node/internal/match/consensus.go:111-129 | at every time a node's leader is the member whose turn it is by its own count of elections, 64-bit wrap-around included |
| ConsensusLeaders.CommitsFromLeader | node/internal/match/consensus.go:154-332 | what is committed at a node came from its leader of some time, or was its own as leader |
| ConsensusLeaders.CommitsNameTheLeader | node/internal/match/consensus.go:111-332 | behind every commit stand f+1 honest members that each heard the ID from the member whose turn it was |
| ConsensusTerms.VotesOnTheseTerms | node/internal/match/consensus.go:240-332 | a vote counts once for its voter; with two thirds of the members' prevotes the node adds and sends its precommit, with two thirds of the precommits it commits what is on file, once; nothing about other IDs changes |
| ConsensusTerms.ProposalsOnTheseTerms | node/internal/match/consensus.go:192-237 | a new proposal goes on file without votes, then the node's own prevote counts like another's |
| ConsensusTerms.ProposesOnTheseTerms | node/internal/match/consensus.go:154-189 | only the leader puts a proposal on file, under its own name, uncommitted and without votes |
| ConsensusTerms.ElectsOnTheseTerms | node/internal/match/consensus.go:111-129 | one election moves the term on and picks the member at the old term's remainder, the first at a negative term |
| MerkleTree.ProofClimbsToRoot | node/cmd/merkletool/main.go:117-160 | the siblings on the way up rebuild the root, odd levels included |
| MerkleTree.DepthIsCeilLog2 | node/cmd/merkletool/main.go:117-137 | the number of levels above the leaves is the ceiling of log2 n |
| MerkleTree.ProofIsShort | node/cmd/merkletool/main.go:140-160 | a proof has at most one element per level |
| MerkleTree.ParentOf | node/cmd/merkletool/main.go:120-134 | neighbours make a parent, an odd node at the end moves up unchanged |
| MerkleTree.Descend | contracts/src/MerkleProof.sol:6-17 | a climb that ends in the tree started at a leaf, when the node function tells the pairs apart |
| Merkle.CompareBytes | node/cmd/merkletool/main.go:107-114 | the byte loop is lexicographic comparison |
| Merkle.LessIsDictionary | node/cmd/merkletool/main.go:107-114 | byte strings compare at their first difference, a proper prefix first |
| Merkle.LessIsNumeric | contracts/src/MerkleProof.sol:10 | lexicographic order on equal lengths is the numeric order of the contract |
| Merkle.PairIsSymmetric | contracts/src/MerkleProof.sol:10-14 | both branches of the contract hash the tools' sorted pair |
| Merkle.ParentIsAscending | node/cmd/merkletool/main.go:122-130 | a parent is the hash of its children's 64 bytes with the numerically smaller child in front |
| Merkle.HashPair | node/cmd/merkletool/main.go:122-130 | two nodes are hashed lower first |
| Merkle.BuildLevel | node/cmd/merkletool/main.go:120-134 | the inner loop pairs neighbours and promotes an odd last node |
| Merkle.BuildTree | node/cmd/merkletool/main.go:117-137 | the loops build exactly the levels of the tree |
| Merkle.GetProof | node/cmd/merkletool/main.go:140-160 | fails exactly for a leaf not in the list, and else returns the siblings above its first place |
| Merkle.Verify | contracts/src/MerkleProof.sol:6-17 | the loop is a fold of the sorted-pair hash |
| Merkle.FoldIsClimb | contracts/src/MerkleProof.sol:6-17 | the contract's fold is the climb in the tools' tree |
| Merkle.MerkleComplete | node/cmd/merkletool/main.go:117-160 | every leaf's proof is accepted and has at most ceil(log2 n) elements |
| Merkle.ProveAndVerify | node/cmd/merkletool/main.go:17-73 | building, proving and verifying together succeed exactly for listed leaves |
| Merkle.MerkleSound | contracts/src/MerkleProof.sol:6-17 | an accepted proof of any length means the item is in the list, for leaves not 64 bytes long |
| Merkle.EntryBytesInjective | node/cmd/merkle-distributor/main.go:130-136 | two leaves are the same bytes if and only if index and account are equal and the amounts are equal up to sign |
| Merkle.EntryFields | node/cmd/merkle-distributor/main.go:130-136 | a leaf is 32 bytes of index, the account, and the magnitude of the amount in 32 bytes unless it takes more |
| Merkle.NegativeAmountSharesLeaf | node/cmd/merkle-distributor/main.go:130-136 | an amount and its negative give the same leaf |
| Merkle.RewardClaimSound | node/cmd/merkle-distributor/main.go:130-166 | an accepted reward claim has the account and, sign apart, the amount of the entry at its index, and is that entry if and only if its amount is not negative |
| RewardLedger.SetScoreKeepsTotals | contracts/src/ContributorReward.sol:155-176 | the period total stays the sum of all scores |
| RewardLedger.SetScoreSucceeds | contracts/src/ContributorReward.sol:425-449 | setting a score fails exactly when the new total would overflow |
| RewardLedger.PeriodSolvent | contracts/src/ContributorReward.sol:250-293 | claims of a period add up to at most its pool |
| RewardLedger.TokenSolvent | contracts/src/ContributorReward.sol:250-293 | claims of a token over all periods add up to at most all its pools |
| RewardLedger.TransferNeverFails | contracts/src/ContributorReward.sol:286-292 | the shared balance covers every payout that gets as far as the transfer |
| RewardLedger.RunsAreSolvent | contracts/src/ContributorReward.sol:232-293 | the invariant holds after every run in which a period's scores are fixed from its first claim on |
| RewardLedger.RunsPayWithinPools | contracts/src/ContributorReward.sol:232-293 | after every such run: totals exact, claims within pools, payouts covered |
| RewardClaims.ClaimedAfter | contracts/src/ContributorReward.sol:261-290 | n claims pay n times the cap, up to the entitlement |
| RewardClaims.CappedClaimingFinishes | contracts/src/ContributorReward.sol:261-290 | claiming pays the floored share exactly, in ceil(share / (pool/10)) calls, never more than 19, and the next call fails |
| RewardClaims.SmallPoolPaysNothing | contracts/src/ContributorReward.sol:280-290 | below a pool of ten any number of claims succeed and pay nothing |
| RewardClaims.ClaimingFinishesIff | contracts/src/ContributorReward.sol:261-290 | claiming ever pays the whole share if and only if the pool is at least ten or the share is zero |
| RewardClaims.ClaimFollowsPreview | contracts/src/ContributorReward.sol:297-322 | a claim pays the preview, cut at a tenth of the pool |
| RewardTerms.ClaimsOnTheseTerms | contracts/src/ContributorReward.sol:250-293 | exactly when a claim goes through, and that it pays the unclaimed rest of the account's share of the pool less its reserve, at most a tenth of the pool at a time, and moves nothing else |
| RewardTerms.PreviewOnTheseTerms | contracts/src/ContributorReward.sol:297-322 | the preview shows that rest |
| RewardTerms.FinishedAccountHoldsItsShare | contracts/src/ContributorReward.sol:261-290 | an account that claims until nothing is left holds the largest amount that is at most its part of the distributable pool |
| RewardTerms.ReserveIsKept | contracts/src/ContributorReward.sol:232-293 | in every run with scores fixed from the first claim that never sets the reserve below r, all claims of a period together leave r basis points of its pool unpaid |
| RewardTerms.ScoredOnTheseTerms | contracts/src/ContributorReward.sol:155-176 | a new score replaces the old one and moves the total by the difference, and nothing else |
| RewardTerms.FundedOnTheseTerms | contracts/src/ContributorReward.sol:232-239 | funding raises pool and balance by the amount that arrived, and nothing else |
| LateScores.DrawnIsReachable | contracts/src/ContributorReward.sol:232-329 | four setup calls and n claims lead to the ledger in which the period is drawn n times |
| LateScores.LateScoreOverdraws | contracts/src/ContributorReward.sol:155-176 | from there a score set late lets the claims of a period exceed its pool |
| LateScores.StaysWithinPoolIff | contracts/src/ContributorReward.sol:250-293 | with pool, scores and reserve fixed from now on, no sequence of claims exceeds the pool if and only if what each account has claimed or may still reach adds up to at most the pool |
| RewardScores.ScoreIsMonotone | contracts/src/ContributorReward.sol:182-229 | better metrics never score lower, and scores are bounded |
| RewardScores.LiquidityScoreRange | contracts/src/ContributorReward.sol:506-514 | the liquidity score is monotone, lies between two bounds and reaches the upper one at the cap |
| ScoreTerms.ScoresOnTheseTerms | contracts/src/ContributorReward.sol:182-229 | the exact score of each node type from uptime and its capped fractions, with the overflow cases |
| ScoreTerms.LiquidityScoredOnTheseTerms | contracts/src/ContributorReward.sol:506-514 | the exact liquidity score |
| ScoreTerms.FullScores | contracts/src/ContributorReward.sol:182-229 | full marks: 80 for matching, 50 for storage, 30 for relaying and 20 for liquidity nodes |
| ContributorReward.ContributorReward.ApplyScore | contracts/src/ContributorReward.sol:155-178 | score and total move together, or the call reverts |
| ContributorReward.ContributorReward.SubmitProof | contracts/src/ContributorReward.sol:129-179 | which submissions are accepted and what they set |
| ContributorReward.ContributorReward.SubmitLiquidityProof | contracts/src/ContributorReward.sol:455-502 | the same for liquidity |
| ContributorReward.ContributorReward.SetContributionScore | contracts/src/ContributorReward.sol:425-449 | the owner's direct setting |
| ContributorReward.ContributorReward.SetPeriodReward | contracts/src/ContributorReward.sol:232-239 | a pool grows by what the owner pays in |
| ContributorReward.ContributorReward.SetReserveBps | contracts/src/ContributorReward.sol:324-329 | governance sets the reserve up to its limit |
| ContributorReward.ContributorReward.ClaimReward | contracts/src/ContributorReward.sol:250-293 | payout and new state of a claim, or nothing |
| FeeShares.SharesSum | contracts/src/FeeDistributor.sol:61-77 | shares that count add up to at most the total, and to all of it when no account is listed twice |
| FeeShares.UncheckedIsExact | contracts/src/FeeDistributor.sol:121-122 | the unchecked amount is the true difference if and only if no more was claimed than is due |
| FeeShares.PendingIsDue | contracts/src/FeeDistributor.sol:105-127 | in every valid state it is, for accumulations small enough for the product |
| FeeShares.Solvent | contracts/src/FeeDistributor.sol:105-127 | claims of a token add up to at most what accumulated |
| FeeShares.ClaimPaysWhatIsDue | contracts/src/FeeDistributor.sol:105-143 | a claim succeeds if and only if something is due, pays exactly that, as the preview says, and settles the account |
| FeeShares.LeftoverIsSmall | contracts/src/FeeDistributor.sol:105-127 | once all of a list of distinct recipients have claimed, less than one unit per recipient is left |
| FeeShares.ClaimSettles | contracts/src/FeeDistributor.sol:105-127 | a claim, whether it pays or reverts, leaves its account with exactly what is due to it |
| FeeShares.LeftoverAfterClaims | contracts/src/FeeDistributor.sol:105-127 | after claims by all of a list of distinct recipients, in any order, less than one unit per recipient is left |
| FeeShares.RunsAreSolvent | contracts/src/FeeDistributor.sol:61-127 | in every run with recipients fixed before the first claim, claims stay within accumulations and the balance covers the rest |
| FeeTerms.ReceivedOnTheseTerms | contracts/src/FeeDistributor.sol:86-102 | exactly when a fee is taken in, and that the developer's part is one hundredth rounded down and the rest accumulates |
| FeeTerms.FirstEntryCounts | contracts/src/FeeDistributor.sol:109-117 | the first entry for an account counts |
| FeeTerms.AcceptedLists | contracts/src/FeeDistributor.sol:61-77 | a list is accepted if and only if it names no zero address and its shares are at most the whole, less the developer's hundredth |
| FeeTerms.ClaimsOnTheseTerms | contracts/src/FeeDistributor.sol:105-143 | a recipient is paid, and shown, the largest amount within its part of what was accumulated, less what it claimed; nobody else anything, and nothing else moves |
| FeeTerms.UncheckedWraps | contracts/src/FeeDistributor.sol:121-122 | beyond that range product and difference wrap at 256 bits |
| FeeDistributor.FeeDistributor.BuildRecipients | contracts/src/FeeDistributor.sol:66-73 | the loop builds the list and its checked total, or stops |
| FeeDistributor.FeeDistributor.SetRecipients | contracts/src/FeeDistributor.sol:61-77 | which lists are accepted and the state they leave |
| FeeDistributor.FeeDistributor.SetDeveloperAddress | contracts/src/FeeDistributor.sol:80-83 | who may set the developer |
| FeeDistributor.FeeDistributor.FindShare | contracts/src/FeeDistributor.sol:109-117 | the share of the first entry for an account, zero when there is none |
| FeeDistributor.FeeDistributor.ReceiveFee | contracts/src/FeeDistributor.sol:86-102 | the developer's cut leaves at once, the rest accumulates |
| FeeDistributor.FeeDistributor.Claim | contracts/src/FeeDistributor.sol:105-127 | payout and new state of a claim, or nothing |
| FeeDistributor.FeeDistributor.Claimable | contracts/src/FeeDistributor.sol:129-143 | the preview |
| ConstantProduct.OutIsLargest | contracts/src/AMMPool.sol:213-219 | the formula pays the largest amount that does not lower the product of the reserves |
| ConstantProduct.OutLeavesReserve | contracts/src/AMMPool.sol:219-220 | it never empties a reserve, so that guard never fails |
| ConstantProduct.SplittingNeverPays | contracts/src/AMMPool.sol:213-219 | two trades in a row pay no more than one trade of both net inputs |
| ConstantProduct.PreviewIsMonotone | contracts/src/AMMPool.sol:238-250 | offering more never previews less, fee and fee cap included |
| ConstantProduct.FeeBounds | contracts/src/AMMPool.sol:210-213 | the fee is never negative, within its rate and its cap, and below the input |
| ConstantProduct.RatioAtMostSpot | contracts/src/AMMPool.sol:108-122 | a swap never beats the spot price |
| ConstantProduct.ImpactIsSpotShortfall | contracts/src/AMMPool.sol:108-122 | the impact guard passes if and only if the payment is at least that share of spot |
| ConstantProduct.SwapIsItsPreview | contracts/src/AMMPool.sol:200-265 | a swap goes through if and only if both previews allow it, and pays and reports what they showed |
| ConstantProduct.SwapKeepsProduct | contracts/src/AMMPool.sol:200-235 | the product does not fall, reserves stay positive, and the payment is within the limit of spot |
| SwapTerms.OnlyFee | contracts/src/AMMPool.sol:210-213 | the fee is the largest integer within the rate and, if the token has one, within its cap |
| SwapTerms.SwapsOnTheseTerms | contracts/src/AMMPool.sol:200-235 | exactly when a swap goes through; it pays the largest amount that keeps the product with the input less that fee, reports the impact, and the pool gains the input without the fee if a distributor is set and all of it otherwise |
| SwapTerms.NoSwap | contracts/src/AMMPool.sol:200-208 | without input, a known token and 1000 of each reserve there is no swap |
| SwapTerms.PreviewsOnTheseTerms | contracts/src/AMMPool.sol:238-265 | the previews show the same payment and impact |
| SwapTerms.NoPreview | contracts/src/AMMPool.sol:238-265 | and zero, or the largest impact, where there is no swap |
| SwapTerms.TermsExist | contracts/src/AMMPool.sol:210-219 | such a fee, payment and impact always exist |
| LiquidityTerms.DepositsOnTheseTerms | contracts/src/AMMPool.sol:133-156 | exactly when a deposit goes through, and that reserves and the provider's record move by it |
| LiquidityTerms.WithdrawalsOnTheseTerms | contracts/src/AMMPool.sol:160-191 | exactly when a withdrawal goes through, leaving 1000 of each token it touches, and what it takes off the record |
| PoolRuns.ProductNeverFalls | contracts/src/AMMPool.sol:200-235 | over any run of swaps, settings and tokens sent in, all tokens are accounted for and the product never falls |
| PoolRuns.NobodyTradesForFree | contracts/src/AMMPool.sol:200-235 | traders together, or one who made every swap, cannot end ahead in one token without being behind in the other, beyond what was given to the pool |
| PoolRuns.RunsAreAccounted | contracts/src/AMMPool.sol:133-235 | in every run reserves, gains, fees and withdrawals add up to all deposits and gifts, and every provider's record is exact |
| PoolRuns.ProvidersTakeOnlyTheirOwn | contracts/src/AMMPool.sol:160-191 | apart from the owner nobody takes out more than they put in |
| PoolRuns.ReservesStayPositive | contracts/src/AMMPool.sol:133-235 | no call of any kind empties a reserve |
| AMMPool.AMMPool.AddLiquidity | contracts/src/AMMPool.sol:133-156 | deposits and the provider's record |
| AMMPool.AMMPool.SetFeeBps | contracts/src/AMMPool.sol:89-92 | who may set the fee, and up to what |
| AMMPool.AMMPool.SetFeeCap | contracts/src/AMMPool.sol:94-98 | who may set a token's fee cap |
| AMMPool.AMMPool.SetMaxPriceImpactBps | contracts/src/AMMPool.sol:100-105 | who may set the impact limit, and up to what |
| AMMPool.AMMPool.SetFeeDistributor | contracts/src/AMMPool.sol:75-77 | only the owner replaces the fee distributor |
| AMMPool.AMMPool.RemoveLiquidity | contracts/src/AMMPool.sol:160-191 | who may take what, and what is left |
| AMMPool.AMMPool.Swap | contracts/src/AMMPool.sol:200-235 | new balances and payment of a swap, with every guard |
| PeerLimiter.Limiter.Allow | node/internal/relay/limiter.go:33-59 | the window a message falls in, whether it is let in, and the counters it leaves |
| PeerLimiter.Limiter.constructor | node/internal/relay/limiter.go:24-30 | a new limiter has no windows |
| PeerLimiter.Limiter.Prune | node/internal/relay/limiter.go:62-71 | exactly the stale windows are deleted |
| PeerLimiter.AdmitsOnTheseTerms | node/internal/relay/limiter.go:33-59 | a message is let in if and only if no set limit is exceeded with it by counters that restart a second after the window was opened, and the window it leaves |
| PeerLimiter.PrunedOnTheseTerms | node/internal/relay/limiter.go:62-71 | a window is kept if and only if it was opened no longer ago than the given age |
| PeerLimiter.TwiceLimitInAnySecond | node/internal/relay/limiter.go:33-71 | in any half-open one-second interval of any trace, pruning of windows a second old included, a peer gets in at most twice its byte limit and twice its message limit |
| PeerLimiterTightness.SafeIffNoWrap | node/internal/relay/limiter.go:46-57 | the byte bound holds for all traces if and only if the most a window can hold before its last message, which the message limit may keep small, and the largest message stay below 2^64 together |
| PeerLimiterTightness.SafeIffPruningWaits | node/internal/relay/limiter.go:33-71 | for bytes and for messages, with no wrap-around, the bound holds for all traces if and only if only windows at least a second old are pruned, or half a second old where a window opens with the only message it lets in |
| TokenBucket.OrderRateLimiter.AllowTokenBucket | node/internal/api/server.go:57-91 | the refill, the cap and the token taken |
| TokenBucket.OrderRateLimiter.Allow | node/internal/api/server.go:130-150 | the bucket decides, and the record of hits is trimmed and extended |
| TokenBucket.NewOrderRateLimiter | node/internal/api/server.go:44-55 | a limit that is not positive gives no limiter |
| TokenBucket.RateHoldsInEveryInterval | node/internal/api/server.go:57-91 | in any interval of length T at most capacity + rate * T requests get in, in every trace |
| TokenBucket.BurstIsWholeTokens | node/internal/api/server.go:76-90 | of n requests at one instant exactly as many get in as there are whole tokens |
| TokenBucket.FullAfterIdleWindow | node/internal/api/server.go:64-90 | after an idle window a key gets its whole limit at once |
| TokenBucket.HitsAreTheLastWindow | node/internal/api/server.go:136-146 | the record of hits is the admitted requests of the last window, at most twice the limit and one |
| TrimmedMean.Mean | node/internal/reward/price.go:51-60 | the loop computes the mean |
| TrimmedMean.DailyTrimmedMean | node/internal/reward/price.go:11-28 | the daily value, with every fallback |
| TrimmedMean.WeeklyAveragePrice | node/internal/reward/price.go:32-49 | the mean over the days that have samples |
| TrimmedMean.DropIsSmall | node/internal/reward/price.go:22-25 | trimming always leaves samples, so its own fallback is never reached |
| TrimmedMean.DropIsTrim | node/internal/reward/price.go:22 | the number of samples cut at each end is the whole number in that percentage of them |
| TrimmedMean.TrimmedValueIs | node/internal/reward/price.go:11-28 | the daily value is the mean of the samples in order without those at either end |
| TrimmedMean.UntrimmedValueIs | node/internal/reward/price.go:15-17 | with a percentage that makes no sense it is the mean of all |
| TrimmedMean.WeeklyPriceIs | node/internal/reward/price.go:32-49 | the weekly price is the mean of the values of the days that have samples |
| TrimmedMean.OrderDoesNotMatter | node/internal/reward/price.go:11-28 | the daily value depends only on the samples, not on their order |
| TrimmedMean.WeeklyOrderDoesNotMatter | node/internal/reward/price.go:32-49 | nor does the weekly price depend on the order within a day |
| TrimmedMean.DailyIsRobust | node/internal/reward/price.go:11-28 | with at most as many outliers on each side as are dropped, the daily value is within the bounds |
| TrimmedMean.WeeklyIsRobust | node/internal/reward/price.go:32-49 | and so is the weekly price |
| TrimmedMean.OneHighTooMany | node/internal/reward/price.go:11-28 | with one high sample more than is dropped the daily value can be anything above |
| TrimmedMean.OneLowTooMany | node/internal/reward/price.go:11-28 | with one low sample more it can be anything below |
| TrimmedMean.RobustIff | node/internal/reward/price.go:11-28 | days of n samples with up to j too low and up to k too high are sure to have their value within the bounds if and only if j and k are at most what is dropped |

## Left out

- Books.MatchConservation: a quote amount is price times quantity; the scaling of the decimal quote strings and `big.Float` rounding are not modelled.
- Runs.BulkEqualsIncremental: for orders with distinct IDs within the cap; bulk replacement itself does not enforce the cap.
- Bisimulation.SessionsBisimilar: of well-formed requests, cancels naming their pair as the node has them; bulk replacement is the node's alone. Prices are numbers on both sides.
- BookSync.FollowerConverges: for a leader book in order with identified, unexpired orders; two empty books are handled by a new request and do not converge.
- BookSync.Aggregate: prices are numeric keys, so price strings that spell one number in two ways are one level here.
- ConsensusSafety.CommitsAreSafe: proposals under different IDs are not ordered or compared, which the protocol does not do either; a leader does not propose again under an ID it has committed, and a vote under an honest member's ID was sent by it.
- ConsensusContent.AgreementIffOneContent: for two or more honest members and fewer members than an int counts; liveness is not stated.
- Merkle.MerkleSound: the hash need only tell apart the byte strings hashed in this tree and this proof; no assumption is made on all inputs.
- RewardLedger.RunsAreSolvent: the unweighted mode, with a reputation threshold; reputation-weighted totals are not modelled, nor are `freeFlowBps` and period end times.
- FeeShares.RunsAreSolvent: for accumulations with `accumulated * 10000 < 2^256` at each claim.
- FeeTerms.ClaimsOnTheseTerms: for the same accumulations, in states that runs with recipients fixed before the first claim reach.
- RewardTerms.ReserveIsKept: for runs with scores fixed from a period's first claim; raising the reserve afterwards takes nothing back.
- PoolRuns.NobodyTradesForFree: about all traders together; one trader among others can gain what the others lose.
- PeerLimiter.TwiceLimitInAnySecond: for sizes whose sums do not wrap; the message limit must be below 2^64-1, at which its counter could.
- PeerLimiterTightness.SafeIffPruningWaits: for limits that messages can use up, one small message having gone before if two are allowed; a byte limit the message limit keeps out of reach is not covered.
- PeerLimiterTightness.SafeIffNoWrap: with a message limit set as well, for byte limits below 2^63, where 2^64 bytes let in at once are more than twice the limit.
- TokenBucket.RateHoldsInEveryInterval: real arithmetic instead of float64; requests are handled one after the other.
- TokenBucket.OrderRateLimiter.Allow: the window is positive, as it is where the limiter is made; a zero window would make the rate infinite.
- LateScores.StaysWithinPoolIff: where the pool is large enough to pay at all, for a balance that covers what may still be drawn.
- TrimmedMean.DailyIsRobust: real arithmetic instead of float64, and the library's sort is any sort.
- Trade timestamps and the rendering of trade IDs as strings (a trade ID is a triple here).
- Signature checks, the signature cache, metrics, logging, locks and goroutines: each call is one step.
- Nil order pointers in snapshots, and orders shared between a caller and a book: orders are values.
- The browser's book objects handed out by `getOrCreateOrderBook` and its order-book events.
- Periodic broadcasting, latencies and Merkle-root fields of the sync manager (`syncPair`).
- Heartbeats and leader timeouts of the consensus engine, and the match proposal's order-book hash.
- Ownership transfer and governance setters of the contracts; keccak period identifiers are strings.
- ERC-20 tokens that take fees on transfer or call back; a failing transfer is a parameter.
- `scripts/merkle_trades.go`: its proofs index a flat list of nodes without the offsets of the levels, so they are not proofs of the tree modelled here.
- `contracts/src/AMMPoolWithLiquidityReward.sol`: repeats the pool's swap, so its laws would be those of `ConstantProduct` again.
- Chain configuration, airdrops, registries, bridge, vault, settlement, governance, relayer selection, epochs and retention: separate components that nothing modelled here depends on.
- Storage, networking, HTTP, WebSocket, wallet and user-interface code.
