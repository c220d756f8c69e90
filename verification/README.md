# Sequitur, verified

A Dafny model of Sequitur: a price-time limit order matching engine fed through lock-free
rings by a Go gateway. `dafny verify dfyconfig.toml` checks the whole project.

## What is modelled

**Matching core.** Three layers, each proved against the next.

- `OrderBooks`, `ObjectPools`, `FixedQueues`, `Engines` update memory in place: one array of
  list heads shared by bids and asks, intrusive doubly linked order cells in the pool's arena,
  a stack of free indices, two fixed queues. A pointer is the index of a cell in the arena
  (the source's own `ptr - pool`), NULL is -1. `LinkedLevels` holds the pointer lemmas.
- `LevelBook` is the same book as values, with the two lazy bounds. `BookInvariants` states what
  one order conserves, and exactly when the bounds stay uncrossed.
- `SimpleMatcher` is the reference: each side one list, best price first, then arrival.
  `MatcherRefinement` proves that the level array computes it, whatever empty levels the bounds
  point at. `EngineModel` lifts this to every run of submissions.
- `MatchingRules` says what the matcher does without the reference: with the side codes of the
  wire, by the resting orders themselves, and for whole runs whose orders a trade names.

**Queues and pipeline.** Each thread is a program counter; each access to a shared index, flag or
released field, and each copy of a slot, is one step; a schedule is any sequence of thread choices,
and theorems are about every schedule. `MpscQueue` has any number of producers and copies packets
word by word, and `MpscOperations` says what a push and a pop answer. `SpscQueue` has the stale
shadow of the head. `Pipeline` composes the ingress ring, the core loop with the engine of
`EngineModel`, the SPSC queue, the publisher, the egress ring, the gateway's reader and the shutdown
signal. `PipelineLosses` says exactly when a report carries another packet's fields, is overwritten
or is left behind, and `PipelineRuns` shows it on runs with rings of every size. `PipelineDelivery`
says exactly when the core leaves defined behaviour, and delivers all other answers. `Responses` is
what the core answers to one packet, and `Reporting` tells it in the packets' own fields. `Rings` is
slot arithmetic. Capacities are symbolic, tickets unbounded, `& Mask` is `% capacity`.

**Gateway.** `GatewayProtocol` is the two-cursor line scanner against a split-based
specification; `SessionRegistry` is the lock-protected registry of trader sessions, and
`SessionOperations` says what handlers record and remove and where reports are sent.

## Where the code does not do what one might expect

Each of these is a lemma with the failing input, beside the exact condition.

- A buy at the last price level or a sell at level 0 that leaves a remainder crosses the bounds,
  after which two buys can trade with each other (`BuyMeetsBuyAtLastLevel`; exactly when:
  `UncrossedExactly` for one order, `RunUncrossedExactly` for a run).
- The execution queue has 10 000 places and is written without a check; with a larger pool one
  order can make more trades than that (`TradesBeyondQueue`; exactly when: `QueueOverflowsExactly`,
  and for the core loop `CoreStopsExactly`).
  `SubmitOrder` requires the room; `RoomExactly` says what a caller must look at.
- The multi-producer queue needs at least two cells (`CapacityOneOverwrites`); its own 2048 is fine.
- Price and quantity of acceptances and rejections are read one after the other after the ring
  slot is released. Either may be another packet's (`ReleasedSlotRace`, `MixedFieldsRace`,
  `RejectionWithAnotherPrice`; exactly when: `ReportsTheFoundPacket`).
- After shutdown the publisher may store over a report not yet read. The gateway then dequeues the
  newer report in its place, and again in its own (`RejectionOverwritten`; exactly when:
  `OverwriteLosesTheOldest` for a step, `LostExactlyWhenLapped` for a run).
- After shutdown the publisher may end while the core still has reports to push, which then stay
  in the queue (`RejectionLeftBehind`; exactly when: `LeftBehindExactly`).
- The repository's README calls the client's balance airtight. Counting each fill once, it fails
  (`BalanceFails`) exactly when some packet meets two makers and wants more than the first
  (`BalanceByBook`); with equal quantities it holds (`EqualQuantitiesBalance`).
- A closing session also removes traders rebound to another session (`RebindingLosesTheTrader`;
  exactly when: `LostExactlyByDeletion`, `MissingExactlyWhenRemoved`).

## Model

| member | source | states |
|---|---|---|
| `SimpleMatcher.ConsumeIsPriceTime` | include/sequitur/core/OrderBook.hpp:75-102 | Price-time priority without recursion: the first makers trade in order, at their own prices and in full; at most one more trades in part; those behind are untouched. |
| `SimpleMatcher.ConsumeCounts` | include/sequitur/core/OrderBook.hpp:84-101 | Exhausted makers are at most the trades, trades at most one more and at most the makers within the limit; a remainder means every maker within the limit died. |
| `SimpleMatcher.ConsumeConserves` | include/sequitur/core/OrderBook.hpp:85-96 | What the makers lose is what is traded. |
| `SimpleMatcher.ConsumeTakesAll` | include/sequitur/core/OrderBook.hpp:75-102 | A taker large enough trades with every maker within its limit. |
| `SimpleMatcher.ConsumeTradesExactly` | include/sequitur/core/OrderBook.hpp:75-102 | More than n trades if and only if more than n makers are within the limit and the quantity exceeds what the first n offer. |
| `SimpleMatcher.EnqueueSorted` | include/sequitur/core/OrderBook.hpp:29-52 | A new quote queued behind its price keeps the list sorted by price, then arrival. |
| `SimpleMatcher.SortedIsUnique` | include/sequitur/core/OrderBook.hpp:26-27 | A side sorted by priority is determined by the orders in it. |
| `MatcherRefinement.SweepConsumes` | include/sequitur/core/OrderBook.hpp:74-130 | On every shaped book, crossed or not, a sweep from a lazy bound, past any empty levels, is the reference walk over the orders from there outward: same trades, same dead, same remainder, same makers left. |
| `MatcherRefinement.MetIsSide` | include/sequitur/core/OrderBook.hpp:74-130 | With uncrossed bounds those orders are the sorted opposite side. |
| `MatcherRefinement.SweepKeeps` | include/sequitur/core/OrderBook.hpp:75-102 | A sweep moves its bound only past levels that end up empty, touches no level nearer the spread, and leaves the other bound. |
| `MatcherRefinement.MatchRefines` | include/sequitur/core/OrderBook.hpp:72-136 | On every shaped, uncrossed book the trades, exhausted makers, remainder and resting orders are those of the reference matcher. |
| `MatcherRefinement.ViewIsTheSortedSide` | include/sequitur/core/OrderBook.hpp:26-27 | The list the reference works on is the only sorted list of exactly the resting orders of a side; the bounds play no part. |
| `BookInvariants.MatchConserves` | include/sequitur/core/OrderBook.hpp:84-135 | On every book: incoming plus open quantity is twice the traded plus the new open quantity; counters follow; trades exceed freed places by at most one. |
| `BookInvariants.MatchShaped` | include/sequitur/core/OrderBook.hpp:29-70 | Orders stay at their own price, with positive quantity and increasing ids, whatever the side and price. |
| `BookInvariants.UncrossedExactly` | include/sequitur/core/OrderBook.hpp:48-51 | `best_bid < best_ask` with each side inside its bound is kept if and only if the order is not a stranding one, a condition on the order and the opposite liquidity. |
| `BookInvariants.BuyMeetsBuyAtLastLevel` | include/sequitur/core/OrderBook.hpp:77-79 | The early break at the last level: a crossed book, and a trade between two buys. |
| `MatchingRules.SideZeroBuys` | include/sequitur/core/OrderBook.hpp:74-102 | On every shaped, uncrossed book an order of side 0 trades with resting orders of side 1 at or below its price, lowest first and earliest first, at their prices and all but the last in full; a remainder has met all of them and raises the bid bound. |
| `MatchingRules.SideOneSells` | include/sequitur/core/OrderBook.hpp:103-130 | An order of side 1 trades with resting orders of side 0 at or above its price, highest first; a remainder lowers the ask bound. |
| `MatchingRules.TwoOrders` | src/core/MatchingEngine.cpp:6-34 | A buy and a sell on a fresh engine trade if and only if their prices meet, at the first one's price and for the smaller quantity. |
| `MatchingRules.BuyThenSell` | include/sequitur/core/IngressPacket.hpp:16-16 | Side 0, 10 at 1001 by 101, then side 1, 10 at 1000 by 102: one trade of 10 at 1001 between them. |
| `MatchingRules.TradeNamesItsOrders` | include/sequitur/core/OrderBook.hpp:91-92 | Over every run a trade names the submission's trader as taker, and as maker the trader of an earlier submission at that one's price; of the opposite side unless the run has stranded. |
| `EngineModel.RunKeepsLedger` | src/core/MatchingEngine.cpp:6-34 | Over every run: submissions are taken orders plus failures, pool usage is the number of resting orders, trades plus resting never exceed orders, and quantity taken is twice the volume plus what rests. |
| `EngineModel.RunCountsAnswers` | include/sequitur/core/OrderBook.hpp:88-89 | Over every run failures, orders, trades and volume are exactly what the answers given add up to. |
| `EngineModel.RunUncrossedExactly` | include/sequitur/core/OrderBook.hpp:48-51 | A run that has not stranded before ends uncrossed if and only if its last submission does not strand. |
| `EngineModel.RegularNeverStrands` | include/sequitur/core/OrderBook.hpp:77-79 | Runs of buys and sells priced strictly inside the level array never strand. |
| `EngineModel.RunRefinesReference` | src/core/MatchingEngine.cpp:6-34 | Over every run of buys and sells that never strands the outcomes are those of the reference engine, refusal by refusal and trade by trade, the resting orders are the same, and the bounds never cross. |
| `EngineModel.PeakIsMaximum` | include/sequitur/memory/ObjectPool.hpp:42-50 | Peak usage is the maximum over the run, reached at some submission. |
| `EngineModel.TradesWithinCrossable` | include/sequitur/core/OrderBook.hpp:91-101 | On every shaped book neither queue gets more entries than there are makers within the limit. |
| `EngineModel.TradesBeyondQueue` | include/sequitur/utils/FixedQueue.hpp:16-16 | Any number of trades that fits the pool is reachable in one submission, hence more than the queue holds. |
| `EngineModel.SubmitOverrunsExactly` | include/sequitur/utils/FixedQueue.hpp:16-16 | A submission makes more trades than there is room for if and only if it gets a slot, meets more makers than that within its limit, and outlasts that many of them. |
| `EngineModel.QueueOverflowsExactly` | src/core/MatchingEngine.cpp:22-22 | After every run the next submission overflows the emptied execution queue if and only if it so overruns its 10 000 places. |
| `EngineModel.RunEqual` | include/sequitur/core/OrderBook.hpp:85-101 | With equal quantities every order trades at most once, over every run. |
| `LinkedLevels.InsertAgrees` | include/sequitur/core/OrderBook.hpp:32-46 | Linking a free cell keeps every level an unshared doubly linked list with right head, tail and volume modulo 2^32. |
| `LinkedLevels.RemoveAgrees` | include/sequitur/core/OrderBook.hpp:54-70 | Unlinking a cell at any place does the same and changes no unlinked cell. |
| `LinkedLevels.ReduceAgrees` | include/sequitur/core/OrderBook.hpp:94-96 | Reducing the first cell of a level and its volume does the same. |
| `OrderBooks.OrderBook.constructor` | include/sequitur/core/OrderBook.hpp:26-27 | The empty book, with bounds at the ends of the array. |
| `OrderBooks.OrderBook.InsertOrder` | include/sequitur/core/OrderBook.hpp:29-52 | Pointer-level insertion is the value-level one; exactly this order becomes linked. |
| `OrderBooks.OrderBook.RemoveOrder` | include/sequitur/core/OrderBook.hpp:54-70 | Exactly this order is unlinked, the others keep their places. |
| `OrderBooks.OrderBook.TradeWithHead` | include/sequitur/core/OrderBook.hpp:84-101 | One trade: book, taker, execution queue and trash queue change as the value-level fill says, the trash by id; no id changes. |
| `OrderBooks.OrderBook.SweepAsks` | include/sequitur/core/OrderBook.hpp:74-102 | The loop over asks terminates and completes the value-level sweep. |
| `OrderBooks.OrderBook.SweepBids` | include/sequitur/core/OrderBook.hpp:103-130 | The loop over bids terminates and completes the value-level sweep. |
| `OrderBooks.OrderBook.Take` | include/sequitur/core/OrderBook.hpp:74-130 | The sweep of an incoming order, on either side or none: the value-level sweep, and of the taker only the quantity changes. |
| `OrderBooks.OrderBook.MatchOrder` | include/sequitur/core/OrderBook.hpp:72-136 | Book, remainder and trades of the value-level match; the trash queue gets the exhausted makers in the order of the model, by id; they are distinct and exactly those no longer linked. |
| `FixedQueues.FixedQueue.Push` | include/sequitur/utils/FixedQueue.hpp:16-16 | Appends, given room. |
| `FixedQueues.FixedQueue.Clear` | include/sequitur/utils/FixedQueue.hpp:18-18 | Empties. |
| `ObjectPools.ObjectPool.constructor` | include/sequitur/memory/ObjectPool.hpp:25-34 | Every slot is free, once. |
| `ObjectPools.ObjectPool.Acquire` | include/sequitur/memory/ObjectPool.hpp:36-55 | Pops a free slot and zeroes its cell, with the counters; or counts a failure and changes nothing else. |
| `ObjectPools.ObjectPool.Release` | include/sequitur/memory/ObjectPool.hpp:57-64 | Pushes the slot back; a null pointer changes nothing. |
| `ObjectPools.PartitionPop` | include/sequitur/memory/ObjectPool.hpp:52-52 | The slot handed out was not in use, and free and used slots still partition the pool. |
| `ObjectPools.PartitionPush` | include/sequitur/memory/ObjectPool.hpp:61-62 | Releasing a used slot keeps the partition. |
| `Engines.MatchingEngine.constructor` | include/sequitur/core/MatchingEngine.hpp:21-23 | A fresh engine is valid and is the model's initial engine. |
| `Engines.MatchingEngine.Admit` | src/core/MatchingEngine.cpp:8-20 | The order is written into a slot that was free and unlinked. |
| `Engines.MatchingEngine.MatchAdmitted` | src/core/MatchingEngine.cpp:22-31 | From an admitted order back to a valid engine, with book, trades and pool usage of the value-level match. |
| `Engines.MatchingEngine.RoomExactly` | include/sequitur/utils/FixedQueue.hpp:16-16 | SubmitOrder's demand for room holds if and only if the submission does not overrun the free places, which a caller can check. |
| `Engines.MatchingEngine.ReleaseTrash` | src/core/MatchingEngine.cpp:24-27 | Every trashed slot returns to the free stack once. |
| `Engines.MatchingEngine.Recycle` | src/core/MatchingEngine.cpp:24-31 | After recycling, free stack and linked orders partition the pool again. |
| `Engines.MatchingEngine.SubmitOrder` | src/core/MatchingEngine.cpp:6-34 | Valid to valid, which includes the partition; the engine, the verdict and the trades are those of the model; the trash queue never overflows when the execution queue does not. |
| `Engines.MatchingEngine.ClearExecutionQueue` | include/sequitur/core/MatchingEngine.hpp:31-31 | Only the execution queue changes. |
| `MpscQueue.RunInv` | include/sequitur/concurrency/MPSCQueue.hpp:43-96 | In every interleaving each cell of the current window is free, owned by the one producer that claimed it, or holds its packet whole. |
| `MpscQueue.PopsAreThePrefixOfClaims` | include/sequitur/concurrency/MPSCQueue.hpp:43-96 | Popped packets are the first claimed ones in ticket order: none lost, duplicated, torn or reordered; at most `capacity` outstanding. |
| `MpscQueue.ClaimIsFree` | include/sequitur/concurrency/MPSCQueue.hpp:55-58 | A producer whose compare-exchange succeeds still has a free cell, although it read the sequence earlier. |
| `MpscQueue.WindowsAreExclusive` | include/sequitur/concurrency/MPSCQueue.hpp:57-61 | No two threads are in the data window of one cell. |
| `MpscQueue.RefusedOnlyWhenFull` | include/sequitur/concurrency/MPSCQueue.hpp:64-66 | A push that reads a too small sequence did so while `capacity` tickets were claimed and unreleased. |
| `MpscQueue.EmptyExactlyWhenUnpublished` | include/sequitur/concurrency/MPSCQueue.hpp:76-95 | Pop finds nothing if and only if the ticket at the head is unclaimed or its producer has not published it. |
| `MpscOperations.PopAnswersExactly` | include/sequitur/concurrency/MPSCQueue.hpp:76-95 | Whatever the producers do between its steps, pop reports empty if and only if the head ticket was unclaimed or unpublished when it read the sequence; otherwise it takes that ticket. |
| `MpscOperations.PopTakesTheHead` | include/sequitur/concurrency/MPSCQueue.hpp:83-92 | A pop on its own with the head published: in 2 + width + 1 steps exactly that packet is appended to what is popped, the head advances by one and the cell is free for the next lap; nothing else changes. |
| `MpscOperations.PushAnswersExactly` | include/sequitur/concurrency/MPSCQueue.hpp:50-71 | Whatever the other threads do between its steps, a push is refused if and only if the queue was full with its ticket next at the read; else it claims its ticket, or reloads the tail if another push was faster or the exchange failed spuriously. |
| `MpscOperations.PushAppends` | include/sequitur/concurrency/MPSCQueue.hpp:43-62 | A push on its own into a queue neither stopped nor full appends its packet as the next ticket and publishes it whole. |
| `MpscOperations.PushThenPop` | include/sequitur/concurrency/MPSCQueue.hpp:43-96 | What is pushed into an empty queue is what the next pop takes. |
| `MpscOperations.StoppedTakesNothing` | include/sequitur/concurrency/MPSCQueue.hpp:44-46 | After a stop with no push under way nothing is ever claimed. |
| `MpscQueue.QuiescentContents` | include/sequitur/concurrency/MPSCQueue.hpp:57-61 | With no operation in progress the cells hold the unpopped packets in order. |
| `MpscQueue.CapacityOneOverwrites` | include/sequitur/concurrency/MPSCQueue.hpp:14-15 | With one cell a second push overwrites an unread packet. |
| `SpscQueue.PushKeeps` | include/sequitur/concurrency/SPSCQueue.hpp:46-67 | Every step of push keeps the invariant and changes the contents only by appending; no unread slot is written. |
| `SpscQueue.PopKeeps` | include/sequitur/concurrency/SPSCQueue.hpp:70-83 | Every step of pop keeps the invariant and removes only the oldest item; empty is reported only of an empty queue. |
| `SpscQueue.RefusedOnlyWhenFull` | include/sequitur/concurrency/SPSCQueue.hpp:55-60 | Apart from shutdown a push is refused only with exactly `capacity` items present at the reload of the head. |
| `SpscQueue.RunInv` | include/sequitur/concurrency/SPSCQueue.hpp:46-83 | In every interleaving `cached_head <= head <= tail <= cached_head + capacity` and the queue is a FIFO. |
| `SpscQueue.StoppedTakesNothing` | include/sequitur/concurrency/SPSCQueue.hpp:47-49 | After a stop with no push under way nothing is ever pushed. |
| `Responses.BalanceExactly` | README.md:175-177 | On every packet stream reports cover packets, with equality exactly when no packet trades twice. |
| `Responses.MeetsTwoExactly` | src/main.cpp:118-177 | After every stream a packet trades twice if and only if it is a new order that gets a slot, meets two makers within its limit and wants more than the first offers. |
| `Responses.BalanceByBook` | README.md:175-177 | Over every stream the balance is exact if and only if no packet is such a one. |
| `Responses.EqualQuantitiesBalance` | client.py:76-77 | With one common quantity the balance is exact. |
| `Responses.BalanceFails` | README.md:175-177 | Three packets with exactly four reports. |
| `Responses.EngineIsARun` | src/main.cpp:118-122 | The engine of a packet stream is the engine after the run of its new orders, each with the packet's side, price, quantity and trader. |
| `Reporting.AnswerExactly` | src/main.cpp:118-177 | Which answer a packet gets, by packet, pool and book: one rejection, one acceptance, or more than n fills if and only if it outlasts the first n makers; rejection and acceptance in every field. |
| `Reporting.FillNamesItsPackets` | src/main.cpp:160-170 | A fill carries its packet's identity and trader, and as maker the trader of an earlier new-order packet at that packet's price; of the opposite side unless an order before has stranded. |
| `Reporting.StreamFills` | src/main.cpp:160-170 | The same for every fill among the answers to any stream. |
| `Reporting.PairAnswers` | src/main.cpp:146-170 | A buy and a sell packet whose prices meet, on a fresh engine: the acceptance and the fill, in every field. |
| `Reporting.ClientPair` | client.py:76-77 | The client's own pair: accepted, then filled with maker 101 and taker 102. |
| `Pipeline.WriterKeeps` | gateway/shm.go:56-74 | Enqueue keeps the ring within one lap, so that its equality-only test detects a full ring, and overwrites no unread packet. |
| `Pipeline.PacketsFlowInOrder` | src/main.cpp:103-128 | In every interleaving the packets processed are the first packets enqueued, each once, and the engine is theirs. |
| `PipelineDelivery.CoreStopsExactly` | src/main.cpp:107-122 | After every schedule the core leaves defined behaviour at a packet if and only if that is a new order priced above 1 000 000, or one that meets more than 10 000 makers within its limit and outlasts that many; any other packet it processes. |
| `PipelineDelivery.AllAnswersDelivered` | src/main.cpp:94-244 | For every ring size and every stream without such packets there is a run that delivers exactly the sequential engine's answers, in order and in every field. |
| `PipelineDelivery.PairDelivered` | src/main.cpp:143-176 | In particular an acceptance and a fill, in every field. |
| `PipelineDelivery.DeliveredFills` | gateway/shm.go:76-91 | In every run each fill dequeued carries the identity and trader of one packet enqueued, and the trader and price of an earlier one. |
| `PipelineDelivery.EnqueueAnswersExactly` | gateway/shm.go:56-74 | Whatever the other threads do between its steps, Enqueue is refused if and only if the ring was full when it loaded the read index; else its packet becomes the next one. |
| `PipelineDelivery.DequeueEmptyExactly` | gateway/shm.go:76-82 | Dequeue reports empty if and only if everything published has been dequeued. |
| `PipelineDelivery.PublisherEndsExactly` | src/main.cpp:223-224 | The publisher ends if and only if it finds the flag down and then the queue empty. |
| `PipelineDelivery.PublisherDrains` | src/main.cpp:223-243 | After shutdown the publisher, left to run with room in the ring, publishes everything in the queue and ends. |
| `Pipeline.RunInv` | src/main.cpp:94-244 | The invariant of all four threads after every schedule. |
| `Pipeline.ReportsFlowInOrder` | src/main.cpp:218-244 | Reports pushed are those dequeued, then the egress ring, then the publisher's, then the SPSC queue, as long as every copy found its own report and no unread slot was stored again; always so while the engine is active. |
| `Pipeline.DeliveredWasPushed` | gateway/shm.go:76-91 | In every run, shut down or not, the i-th report dequeued is one the core pushed, the i-th or a later one of the same slot. |
| `Pipeline.DeliveredIsThePrefixOfAnswers` | gateway/shm.go:76-91 | In every run what the gateway dequeues are answers of the sequential engine to the packets enqueued; a prefix of them, each in its turn, while active or as long as every copy found its own report. |
| `PipelineLosses.PriceIsFound` | src/main.cpp:137-137 | The price is that of the packet in the slot at the first read. |
| `PipelineLosses.ReportsTheFoundPacket` | src/main.cpp:127-154 | The quantity is that of the packet in the slot at the second read: the report has both own fields, its own price with the quantity of the packet a lap later, or both of the latter; wholly its own if and only if the slot is intact at the second read, equal values apart. |
| `PipelineRuns.ReleasedSlotRace` | src/main.cpp:127-154 | For every ring size, from any reachable state whose slot is just released, the ring empty and the writer idle: a lap of enqueues before both reads makes the core report with the last packet's price and quantity. |
| `PipelineRuns.MixedFieldsRace` | src/main.cpp:137-138 | The same lap between the two reads: its own price, the other packet's quantity. |
| `PipelineRuns.RejectionWithAnotherPrice` | src/main.cpp:137-138 | For every ring size, runs in which a rejection carries another packet's price and quantity, or its own price and another's quantity. |
| `PipelineLosses.CopyFindsTheNewest` | gateway/shm.go:76-91 | In every run the reader's copy finds the newest report stored in the slot, its own if and only if at most a lap has been stored since. |
| `PipelineLosses.OverwriteLosesTheOldest` | src/main.cpp:228-236 | A report not yet copied is overwritten by exactly the publisher's store a full lap later, only after shutdown, and only as the oldest that survives. |
| `PipelineLosses.LostExactlyWhenLapped` | src/main.cpp:228-236 | Over every run the i-th copy is of the i-th report if and only if at no moment before it a report a lap later was stored. |
| `PipelineRuns.RejectionOverwritten` | src/main.cpp:228-236 | For every ring size, a run in which that happens: the first report published is one rejection, another is dequeued in its place and once more at its own turn. |
| `PipelineLosses.LeftBehindExactly` | src/main.cpp:223-224 | When both threads have ended, reports are left in the queue if and only if the core was not finished, or the queue not empty, when the publisher ended; what was pushed are the answers to all packets processed. |
| `PipelineRuns.RejectionLeftBehind` | src/main.cpp:223-224 | For every ring size, a run in which a packet is processed and its report stays in the queue. |
| `GatewayProtocol.IngressPacket.AssignField` | gateway/protocol.go:34-81 | Sets exactly the field of that index to the number, or nothing and an error. |
| `GatewayProtocol.FindComma` | gateway/protocol.go:90-99 | The inner loop stops at the first comma or the end. |
| `GatewayProtocol.TrimExactly` | gateway/protocol.go:84-84 | Trimming cuts white space, only that and all of it, from both ends. |
| `GatewayProtocol.IngressPacket.ParseCSV` | gateway/protocol.go:83-117 | Packet and verdict of scanning the fields, including the fields left assigned by an error. |
| `GatewayProtocol.FieldsAreSplit` | gateway/protocol.go:86-112 | The scanner's fields are the comma-separated parts without one empty last part. |
| `GatewayProtocol.SplitJoin` | gateway/protocol.go:95-101 | Splitting cuts at every comma and loses nothing. |
| `GatewayProtocol.ParsesExactly` | gateway/protocol.go:83-117 | Success if and only if there are seven in-range decimal fields; then every field has its number. |
| `GatewayProtocol.PaddedRoundTrip` | gateway/protocol.go:83-117 | Every packet printed as seven decimals, between any Unicode white space, parses back to itself. |
| `GatewayProtocol.RoundTrip` | client.py:76-77 | In particular with the client's newline. |
| `GatewayProtocol.ClientLine` | client.py:76-76 | The client's buy line gives kind, side, instrument, trader, quantity, price and order id in this order. |
| `SessionRegistry.RunInv` | gateway/main.go:39-74 | The invariant of handlers, lock, registry and distributor after every schedule. |
| `SessionRegistry.RegistryIsLive` | gateway/main.go:104-123 | Every entry points to an open session that recorded the trader; no send on a closed channel. |
| `SessionOperations.ConnectedExactly` | gateway/main.go:20-28 | In every run the sessions are those that connected, and a new one has recorded nothing. |
| `SessionOperations.RecordedExactly` | gateway/main.go:65-67 | In every run a session has recorded a trader if and only if its handler read a message of that trader, by the schedule alone. |
| `SessionRegistry.MessageRegisters` | gateway/main.go:65-71 | In every run a message of a trader not yet recorded, whatever the session has recorded before, records it, and with the lock free three steps register it for the session. |
| `SessionOperations.CloseRemovesItsTraders` | gateway/main.go:39-50 | A disconnect with the lock free removes exactly the session's recorded traders, closes its channel and touches no other session. |
| `SessionOperations.SendsFollowTheRegistry` | gateway/main.go:107-121 | In every run a send goes to the open session its trader is registered for at that moment. |
| `SessionOperations.ReportIsRouted` | gateway/main.go:104-123 | Whatever the handlers do between the distributor's steps, a report goes to the taker's session and then to the maker's, as registered when the lock was taken, and to no other. |
| `SessionRegistry.RegistryIsTheLastTouch` | gateway/main.go:43-72 | In every run a trader is registered, and to that session, if and only if the last registration or deletion of it is a registration by it. |
| `SessionRegistry.MissingExactlyWhenRemoved` | gateway/main.go:43-45 | A trader bound to an open session is missing if and only if the last registration or deletion of it in the schedule is a deletion; then by another session that recorded it and closes or has closed. |
| `SessionRegistry.PresentWhileNoOtherCloses` | gateway/main.go:43-45 | It is present while no other session that recorded it closes or has closed. |
| `SessionRegistry.LostExactlyByDeletion` | gateway/main.go:43-45 | The step that loses it is exactly its deletion by a closing handler. |
| `SessionRegistry.RebindingLosesTheTrader` | gateway/main.go:43-45 | A run in which that happens. |

## Left out

- SubmitOrder: requires a price within the level array and room in the execution queue, which the code needs and does not check; RoomExactly gives the room by the order and the book.
- Pipeline: a packet outside those bounds sends the core to a stuck state, since the code then has no defined behaviour.
- Order objects are cells of the arena addressed by index, not references; `instrument_id` and `executed_quantity` are not modelled because the core never uses them.
- The pool's atomic counters are plain integers, since one thread owns the pool; the compare-exchange retry on the peak is one comparison.
- Weak memory and 64-bit wrap-around of cursors, order ids and trade counters: steps are sequentially consistent and those numbers unbounded. Level volume does wrap at 2^32.
- Ring and SPSC slots are copied in one step, so that a copy torn by a store after shutdown is not modelled; word-by-word copying is modelled only in the multi-producer queue, and field by field reading where the core reads a released slot.
- Liveness: no theorem says that a waiting thread eventually proceeds.
- Lines are sequences of code points; malformed UTF-8 is not modelled, and `strconv.ParseUint` is its specification.
- Delivery to sockets and drops to slow clients: a send is only checked against a closed channel.
- Metrics batching, `MetricsWorker`, `Timer`, `RingBuffer`, shared-memory mapping, struct layout, signals as such, scripts and dashboards.
