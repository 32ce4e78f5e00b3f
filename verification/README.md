# A verified model of the limit order book and its event queue

The project models a single-instrument limit order book in Dafny: the open-addressed order index, the
slab pool, the intrusive FIFO price levels, the tick-indexed ladders with their occupancy bitset, the
book that keeps these synchronised, the matching engine on top, and the lock-free queue that feeds it.

Each structure is a class (or, for the two-thread queue, a state machine) that carries out the same
steps as the code, with the same error branches. Each is proved against a plain value: the index
against a map, a level against a sequence, the bitset against a set, the pool against the set of live
addresses. The book is proved against an abstract book of two lists in price-time order. The engine's
run over any sequence of events is proved equal to the abstract book's run, for every hash function.
What the system promises is then proved of all abstract runs: strict priority, an uncrossed book, one
and only one greedy matching per order, conservation of quantity, the exact meaning of a level's
aggregate.

`dafny verify dfyconfig.toml` verifies everything.

## Layout

- `Types`, `Bits`: values, errors, order memory; powers of two, masks and bits over natural numbers.
- `OrderIndex`, `PriceLevel`, `PriceLadder`, `OrderPool`: one module per structure.
- `AbstractBook`: the two-list book, its matching function, events, outcomes and runs.
- `BookState`: when the structures agree, and which abstract book they then stand for.
- `BookChanges`: each change the book makes keeps agreement and is one abstract operation.
- `OrderBook`, `MatchingEngine`: the classes, refining the abstract book and its runs.
- `Runs`, `Greedy`, `Ledger`, `Accounting`, `Reports`: properties of all runs.
- `Answers`: what each event answers and does, element by element and in plain prices and quantities,
  without naming the functions that compute it.
- `Refusals`, `DirectInsertion`: exactly when a remainder is refused, and when a direct insertion crosses.
- `Findings`: runs on which the code departs from its comments.
- `SpscQueue`: the single-producer single-consumer ring as interleaved atomic steps.

An outcome separates an order *rejected* before any effect from one *accepted* whose remainder was
*refused* after it had already traded, since range, tick and overflow are only checked when the
remainder is inserted. The sequence counter is process-wide, so an event `Foreign` stands for another
engine taking a number between two events of this one.

## Where the code and its comments disagree

The model follows the code in each case.

- The aggregate of a level is documented as the aggregate remaining quantity
  (`include/lob/book/price_level.hpp:38`). A completing fill zeroes the order before the level
  subtracts its remaining quantity, so the final slice stays in the aggregate, even after the level
  empties. `Accounting.AggregateAccounting` gives the exact value on every run and shows that it is the
  plain sum if and only if no order was ever filled completely there; `Findings.AggregateDrifts` is a
  family of two-event runs that shows the drift; `Findings.DriftedLevelRefuses` is a family of
  three-event runs in which an empty level refuses an order, and `Refusals.OverflowIff` states exactly
  when a level does; `BookChanges.RepairedFill` shows that subtracting before removing cures it.
- `include/lob/matching/matching_engine.hpp:35` promises that a remaining limit quantity is added to the
  book. Range, tick and room are checked only then, after the executions. `Refusals.RefusedIff` states,
  in terms of the book the order meets, exactly when the remainder is refused and when the order has
  traded before that; `Findings.RefusedAfterTrading` gives runs from the empty book.
- An index slot is empty when its pointer is null, not when its key is zero as
  `include/lob/index/order_index.hpp:80` says.
- `include/lob/book/price_ladder.hpp:31` calls index 0 the worst price; it is the best on both sides.
- The refusals of the queue are commented "genuinely full" and "genuinely empty". A load may return an
  older cursor, so `SpscQueue.PushRefusal` and `SpscQueue.PopRefusal` state exactly when a refusal
  happens on a queue that is not full or not empty, and `SpscQueue.RefusedWithRoom` and
  `SpscQueue.RefusedWithEvent` give such runs for every capacity.
- `include/lob/index/order_index.hpp:62` promises that n entries fit after `reserve(n)` without a later
  doubling. Growth comes before the probe, so a refused duplicate can double the table.
  `OrderIndex.ReservedThenDuplicate` shows for every n that n insertions do not, and that a duplicate at n
  entries then does exactly when n is a power of two from 8 on.
- `OrderBook::addOrder` is public and does not match. `Runs.AddUncrossedIff` states exactly when one
  insertion keeps bids below asks, and `DirectInsertion.MixedUncrossedIff` exactly when a run that mixes
  engine events with direct insertions is uncrossed throughout; `Findings.DirectInsertionCrosses` is a
  family where it is not. Orders that go through the engine never cross the book (`Runs.RunSound`).

## Model

| member | source | states |
|---|---|---|
| `OrderIndex.CyclicRangeIsDistance` | src/index/order_index.cpp:22-28 | the two-branch wrap-around test holds exactly when the cyclic distance from i to k is positive and at most that from i to j |
| `OrderIndex.Probe` | src/index/order_index.cpp:43-55 | for every hash the stop-at-first-empty scan ends, and ends on the key's own entry exactly when the key is in the map, otherwise on the empty slot where it belongs |
| `OrderIndex.Rehash` | src/index/order_index.cpp:72-83 | a rehash into any larger power of two holds exactly the same map with every entry reachable from its home |
| `OrderIndex.ShiftMove` | src/index/order_index.cpp:160-164 | pulling an entry back into the hole keeps the shift invariant with the hole moved, and gets closer to an empty slot |
| `OrderIndex.ShiftSkip` | src/index/order_index.cpp:158-165 | leaving in place an entry whose home lies in the cyclic range keeps the shift invariant and gets closer to an empty slot |
| `OrderIndex.ShiftEnd` | src/index/order_index.cpp:158-166 | at the first empty slot every remaining entry is reachable from its home again |
| `OrderIndex.BackwardShift` | src/index/order_index.cpp:156-166 | the shift loop terminates, loses and duplicates nothing, and restores reachability |
| `OrderIndex.Erase` | src/index/order_index.cpp:150-166 | emptying a slot and shifting back is exactly map removal of its key |
| `OrderIndex.OrderIndex.FindOrder` | src/index/order_index.cpp:170-176 | lookup returns the mapped pointer, or null when the id is not mapped |
| `OrderIndex.OrderIndex.Reserve` | src/index/order_index.cpp:63-84 | the map is unchanged, the table never shrinks, n entries fit under half load, the doubling stops at the first size that fits, and a table already large enough is untouched |
| `OrderIndex.OrderIndex.GrowIfNeeded` | src/index/order_index.cpp:86-106 | the map is unchanged, one more entry fits under half load, and the table is rebuilt only when it did not fit before |
| `OrderIndex.OrderIndex.AddOrder` | src/index/order_index.cpp:115-134 | insertion is map insertion; null and duplicate ids are refused with the map unchanged; the new size is exact, also for a refused duplicate |
| `OrderIndex.OrderIndex.RemoveOrder` | src/index/order_index.cpp:137-167 | removal is map removal, only for the very pointer that is mapped; every error leaves the map unchanged; the size never changes |
| `OrderIndex.ReservedThenDuplicate` | src/index/order_index.cpp:63-134 | for every n and hash, n insertions after reserving for n do not grow the table, and a further duplicate is refused and doubles it exactly when n is a power of two from 8 on |
| `PriceLevel.AppendOk` | src/book/price_level.cpp:27-37 | linking at the tail turns the list for s into the list for s followed by the order, on the linked memory |
| `PriceLevel.UnlinkOk` | src/book/price_level.cpp:46-66 | unlinking at any position turns the list for s into the list for s without it, with the aggregate covering what is left |
| `PriceLevel.PriceLevel.AddOrder` | src/book/price_level.cpp:9-38 | appends to the FIFO and the aggregate, or refuses with the code's error for null, wrong price, already linked, filled or overflow and changes nothing |
| `PriceLevel.PriceLevel.RemoveOrder` | src/book/price_level.cpp:41-67 | removes exactly the order from the FIFO, clears its links, and refuses an order of another level without effect |
| `PriceLevel.PriceLevel.ReduceTotal` | src/book/price_level.cpp:70-76 | only the aggregate changes, and it is refused rather than underflow |
| `PriceLadder.DivisionTest` | src/book/price_ladder.cpp:21-24 | the division test refuses exactly the ranges whose top price would not fit |
| `PriceLadder.CheckConfig` | src/book/price_ladder.cpp:12-25 | accepts exactly the configurations with nonzero parameters for which minPrice + (levelCount - 1) * tick is a 64-bit value |
| `PriceLadder.PriceBounds` | src/book/price_ladder.cpp:31-36 | no price of an accepted configuration overflows or leaves the range |
| `PriceLadder.PriceAtIs` | src/book/price_ladder.cpp:31-36 | level i is the i-th tick from the lowest price for asks and the i-th from the highest for bids |
| `PriceLadder.PriceOrder` | src/book/price_ladder.cpp:31-36 | a lower index is a strictly better price on either side |
| `PriceLadder.IndexOfPriceAt` | src/book/price_ladder.cpp:31-58 | the index of the price built for index i is i |
| `PriceLadder.PriceAtIndexOf` | src/book/price_ladder.cpp:40-58 | a price has an index exactly when it is the price of some level, that level's price is it, and out-of-range is reported exactly outside the bounds and a bad tick otherwise |
| `PriceLadder.MarksUnique` | src/book/price_ladder.cpp:37-37 | a set of indices has only one bitset representation, partial last word included |
| `PriceLadder.SetMarks` | src/book/price_ladder.cpp:70-70 | the word update adds exactly one index to the set of marks |
| `PriceLadder.ClearMarks` | src/book/price_ladder.cpp:87-87 | the word update removes exactly one index from the set of marks |
| `PriceLadder.NextSetBit` | src/book/price_ladder.cpp:94-113 | the word-wise scan returns the first marked index at or after `from`, and npos exactly when there is none |
| `PriceLadder.PriceLadder.constructor` | src/book/price_ladder.cpp:30-37 | every level is built at its permanent price, empty and unmarked |
| `PriceLadder.PriceLadder.MarkOccupied` | src/book/price_ladder.cpp:68-75 | the set gains the index, and bits and cached best agree with it; the count, always one more, is right again exactly when the level was not marked before |
| `PriceLadder.PriceLadder.MarkEmpty` | src/book/price_ladder.cpp:85-92 | the set loses the index, and bits and rescanned best agree with it; the count, one less and wrapping below zero, is right again exactly when the level was marked before |
| `PriceLadder.PriceLadder.Best` | src/book/price_ladder.cpp:115-117 | the cached best is the least occupied index and absent exactly when nothing is occupied |
| `PriceLadder.IndicesSorted` | include/lob/book/price_ladder.hpp:115-121 | the linear scan lists every occupied index and nothing else, in strictly increasing order |
| `PriceLadder.PriceLadder.FirstLevels` | include/lob/book/price_ladder.hpp:115-121 | the traversal returns the first min(depth, occupied) levels of the linear scan |
| `OrderPool.TakeOk` | src/book/order_pool.cpp:153-161 | taking the first free slot leaves a page whose acyclic free chain lists exactly its unoccupied slots |
| `OrderPool.GiveOk` | src/book/order_pool.cpp:205-212 | returning an occupied slot puts it in front of such a chain |
| `OrderPool.AddToFreeList` | src/book/order_pool.cpp:107-118 | links a page in front of the doubly linked page list, and does nothing to a page already on it |
| `OrderPool.RemoveFromFreeList` | src/book/order_pool.cpp:120-135 | takes a page out of the list wherever it stands, and does nothing to a page not on it |
| `OrderPool.TakeSlot` | src/book/order_pool.cpp:153-166 | yields an address that was not live; afterwards exactly that one more is live and the page list holds exactly the pages with a free slot |
| `OrderPool.GiveSlot` | src/book/order_pool.cpp:206-213 | afterwards exactly that address is no longer live and the page list holds exactly the pages with a free slot |
| `OrderPool.OrderPool.CreatePage` | src/book/order_pool.cpp:86-105 | a new page with all its slots free joins the page list and no live slot is disturbed |
| `OrderPool.OrderPool.Reserve` | src/book/order_pool.cpp:175-180 | there are slots for n orders and no page more than that takes, pages are never removed and live orders are untouched |
| `OrderPool.OrderPool.Allocate` | src/book/order_pool.cpp:144-168 | stores the order at an address not live before and disturbs no other; a page is created exactly when every slot is taken |
| `OrderPool.OrderPool.Release` | src/book/order_pool.cpp:183-214 | succeeds exactly for live addresses and frees exactly that one; null, foreign, misaligned and free addresses are refused without effect |
| `Types.OrderMemory.ReduceRemaining` | src/order/order.cpp:40-46 | subtracts from one order's remaining quantity, or refuses an underflow without effect |
| `Types.OrderMemory.SetRemaining` | src/order/order.cpp:62-70 | writes one order's remaining quantity, or refuses zero and more than the original without effect |
| `BookState.Found` | src/book/order_book.cpp:169-175 | a resting order stands on its own side's level at its price, at one place of that side's list, and not on the other side |
| `BookState.HasIff` | src/book/order_book.cpp:169-175 | the abstract book holds an id exactly when the index maps it |
| `BookState.TotalIs` | include/lob/book/price_level.hpp:38-39 | a level's aggregate is what rests at its price plus the excess carried by the abstract book |
| `BookState.HeadIs` | src/book/order_book.cpp:177-183 | the head of the lowest occupied level is the head of that side's list |
| `BookState.DepthIs` | src/book/order_book.cpp:205-226 | walking the marked levels shows what a scan of the whole tick range of the abstract book shows |
| `BookState.SizeIs` | include/lob/book/order_book.hpp:151-157 | memory, index and abstract book hold the same number of orders |
| `BookChanges.InsertedOk` | src/book/order_book.cpp:72-81 | linking, marking and indexing a new order keeps the structures in agreement and is insertion in price-time order |
| `BookChanges.RemovedOk` | src/book/order_book.cpp:158-166 | unlinking, unmarking, unindexing and releasing an order keeps the structures in agreement and is removal of its id |
| `BookChanges.ShrinkOk` | src/book/order_book.cpp:127-128 | lowering an order and its aggregate by the same amount keeps agreement, keeps the order's place and adds no excess |
| `BookChanges.DrainOk` | src/matching/matching_engine.cpp:150-157 | zeroing an order without its aggregate leaves the structures in agreement but for that order, and adds its last slice to the excess |
| `BookChanges.RepairedFill` | src/matching/matching_engine.cpp:150-160 | with the aggregate reduced before the removal, a full fill would leave no excess |
| `OrderBook.Link` | src/book/order_book.cpp:72-79 | links and marks, or refuses with the ladder, its bits and the memory unchanged |
| `OrderBook.Unlink` | src/book/order_book.cpp:158-164 | unlinks, and unmarks the level exactly when it became empty |
| `OrderBook.Rollback` | src/book/order_book.cpp:83-88 | unlinking the order that was just linked restores the memory and every level exactly |
| `OrderBook.SameMarks` | src/book/order_book.cpp:77-87 | two sound states of a ladder that mark the same levels have the same words, cached best and count, so marking and unmarking restores all three |
| `OrderBook.OrderBook.constructor` | src/book/order_book.cpp:10-12 | the structures of a new book agree and stand for the empty book |
| `OrderBook.OrderBook.AddOrder` | src/book/order_book.cpp:44-94 | a bad type, quantity, id, timestamp, number, side or price is refused field by field; it succeeds exactly when the ordered checks of the code do, then inserts in price-time order and returns the address of the new order; every failure leaves FIFOs, totals, bits, cached bests, index and live set as they were; no page and no rehash while fewer orders rest than fit |
| `OrderBook.OrderBook.RemoveOrder` | src/book/order_book.cpp:146-167 | removes the order from every structure and nothing else, also when it arrives already drained; null and orders that are not in this book are refused without effect; pages and slots are kept |
| `OrderBook.OrderBook.CancelOrder` | src/book/order_book.cpp:97-104 | removes the id from the abstract book and reports whether it was there |
| `OrderBook.OrderBook.ReduceOrder` | src/book/order_book.cpp:111-130 | an absent id is reported, zero and an increase are refused, both with every structure unchanged; otherwise only that order's quantity changes and it keeps its place |
| `OrderBook.OrderBook.Touch` | src/book/order_book.cpp:177-183 | the best level is absent exactly when the side is empty, and its head is the first order of the list |
| `OrderBook.OrderBook.ReserveCapacity` | src/book/order_book.cpp:193-196 | nothing that rests is touched; pool and index then have the first sizes with room for n orders, and never less than before |
| `OrderBook.OrderBook.CaptureSnapshot` | src/book/order_book.cpp:205-226 | each side shows the first min(depth, occupied) levels of the abstract depth and the full level count; the best prices are those of the first orders of the lists, and 0 for an empty side or depth 0 |
| `AbstractBook.DepthPriority` | src/book/order_book.cpp:198-204 | the depth shows exactly the non-empty levels, in strict price priority, each with its aggregate and order count |
| `MatchingEngine.SequenceNumbers.Generate` | src/matching/sequence_number_generator.cpp:12-18 | each number is one more than the last, so none is zero or repeated; exhaustion is an error that changes nothing |
| `MatchingEngine.MatchStep` | src/matching/matching_engine.cpp:141-160 | one execution against the head followed by the matching of what is left is the matching of the whole |
| `MatchingEngine.MatchingEngine.Execute` | src/matching/matching_engine.cpp:150-160 | the structures after one full or partial fill stand for the abstract book with its head consumed; no step of it can throw; pages and slots are kept |
| `MatchingEngine.MatchingEngine.Trade` | src/matching/matching_engine.cpp:118-161 | the loop terminates with the executions, the leftover and the book of the abstract matching, whose prices, quantities and stopping `Answers.LimitRespected`, `Answers.MarketSweeps` and `Answers.NewExecutes` state |
| `MatchingEngine.MatchingEngine.MatchOrder` | src/matching/matching_engine.cpp:90-168 | one incoming order is one abstract step, whose answers and effects `Answers.NewAnswer`, `Answers.RemainderIs` and `Answers.RestedAs` state |
| `MatchingEngine.MatchingEngine.ProcessEvent` | src/matching/matching_engine.cpp:25-53 | one event on the structures is one step of the abstract book, outcome and state; for cancellations and reductions `Answers.CancelBid`, `Answers.ReduceBid`, their counterparts and `Answers.AbsentAnswer` state it |
| `MatchingEngine.MatchingEngine.ProcessAll` | src/matching/matching_engine.cpp:25-168 | every sequence of events drives the structures exactly as the abstract book runs, and they stay in agreement; no page and no rehash if before every event fewer orders rest than fit |
| `MatchingEngine.Session` | src/matching/matching_engine.cpp:25-168 | for every configuration, hash, reserved capacity and event sequence from an empty book, the outcomes and final quotes are those of the abstract run, the bid is below the ask, and while fewer orders rest than were reserved for, pages and slots end exactly as reserved |
| `Runs.OrderedInsert` | src/book/price_level.cpp:27-37 | inserting the latest accepted order keeps strict price-time order |
| `Runs.MatchStops` | src/matching/matching_engine.cpp:118-134 | matching leaves nothing over, or an empty opposing side, or a head the order does not cross |
| `Runs.AddUncrossedIff` | src/book/order_book.cpp:19-24 | in any book whose bids lie below its asks and whose opposing list is in price order, an insertion keeps that if and only if its price stays strictly short of the opposing best, whatever its id and number |
| `DirectInsertion.AfterRanked` | src/book/order_book.cpp:19-24 | in every run that mixes engine events and direct insertions both lists stay in price order, whatever sequence numbers the insertions carry |
| `DirectInsertion.MixedUncrossedIff` | src/book/order_book.cpp:19-24 | such a run is uncrossed in all its states if and only if every accepted direct insertion stayed strictly short of the opposing best at its time |
| `Runs.ReduceKeeps` | src/book/order_book.cpp:111-130 | a reduction keeps priority, distinctness and the uncrossed book |
| `Runs.NewKeeps` | src/matching/matching_engine.cpp:112-167 | an accepted order keeps them, also when its remainder is refused |
| `Runs.StepKeeps` | src/matching/matching_engine.cpp:25-53 | every event keeps them, also numbers taken by other engines in between, and acceptance numbers never decrease |
| `Runs.RunSound` | src/matching/matching_engine.cpp:118-167 | in every reachable state both lists are in strict price-then-acceptance order, ids and numbers are distinct, 0 < remaining <= original, and every bid is below every ask |
| `Answers.BookInOrder` | src/matching/matching_engine.cpp:118-167 | the same in plain terms: bids fall and asks rise in price, equal prices stand by number, every bid is below every ask, ids and numbers are distinct, every price is on a tick |
| `Answers.NewAnswer` | src/matching/matching_engine.cpp:93-112 | a new order is accepted, refused for its fields, for a resting id, or for exhausted numbers, each exactly under the stated field and list conditions; every rejection leaves the state equal |
| `Answers.NewExecutes` | src/matching/matching_engine.cpp:136-161 | execution k is against order k of the opposing list with both ids and its price, takes all of it unless it is the last, and the list afterwards is what remains, a partly filled order keeping place and fields |
| `Answers.LimitRespected` | src/matching/matching_engine.cpp:127-134 | no execution of a limit buy is above its limit and none of a limit sell below it, and while something is left every order still opposite is priced strictly beyond the limit |
| `Answers.ExecutesSupply` | src/matching/matching_engine.cpp:118-161 | an order executes the smaller of its quantity and all that rests opposite at prices that suit it |
| `Answers.MarketSweeps` | src/matching/matching_engine.cpp:118-167 | a market order executes the smaller of its quantity and everything opposite, is left with something only when the opposing list is then empty, and that is discarded |
| `Answers.RemainderIs` | src/matching/matching_engine.cpp:163-167 | what is left is nothing, discarded, refused as out of range, off tick or too much for the level, or rested, each by price, quantity and aggregate alone |
| `Answers.RestedAs` | src/matching/matching_engine.cpp:163-166 | a rested remainder is one new element with the submitted quantity as its original, behind every order priced at least as well; otherwise its side is unchanged |
| `Answers.OriginalIsSubmitted` | src/book/order_book.cpp:26-37 | in every reachable state each resting order's original is what the journal says was submitted under its number |
| `Answers.ReduceBid` | src/matching/matching_engine.cpp:40-49 | for a resting bid, a quantity from 1 to its remaining changes exactly that field of that element; any other quantity is refused with the state equal |
| `Answers.ReduceAsk` | src/book/order_book.cpp:111-130 | the same for a resting ask |
| `Answers.CancelBid` | src/matching/matching_engine.cpp:34-39 | a resting bid leaves its list and nothing else changes |
| `Answers.CancelAsk` | src/book/order_book.cpp:97-104 | the same for a resting ask |
| `Answers.AbsentAnswer` | src/matching/matching_engine.cpp:34-49 | an id under which nothing rests is reported, id 0 is refused, and neither changes anything |
| `Answers.AddAnswer` | src/book/order_book.cpp:48-81 | direct insertion into any book: each refusal with its exact condition, in order of precedence |
| `Answers.AddPlaces` | src/book/order_book.cpp:72-81 | an order inserted into a list in price order is one new element with its fields, behind every order priced at least as well; nothing else changes |
| `Greedy.MatchIsGreedy` | src/matching/matching_engine.cpp:114-161 | executions follow the opposing list without skips or repeats, all but the last complete, at crossing prices, executed plus left equals submitted, and stopping is justified; `Answers.LimitRespected` says crossing in prices |
| `Greedy.GreedyIsMatch` | src/matching/matching_engine.cpp:114-161 | any list of fills with those properties is the one the engine produces |
| `Greedy.PricesMonotone` | src/matching/matching_engine.cpp:116-134 | execution prices never improve along the match and no resting order is hit twice |
| `Reports.NewFollowsPriority` | src/matching/matching_engine.cpp:112-167 | after any run, the executions reported for an accepted order are that one greedy matching of the current opposing list, which loses exactly them, and the reported remainder is what is left |
| `Refusals.LeftIs` | src/matching/matching_engine.cpp:118-161 | what is left after matching is the quantity less what the leading crossing orders offer |
| `Refusals.ReachIsAll` | src/matching/matching_engine.cpp:118-134 | in priority order the leading crossing orders are all the orders within the limit |
| `Refusals.AdmitUnaffected` | src/book/order_book.cpp:72-75 | executions do not change whether a remainder is admitted on its own side |
| `Refusals.RefusedIff` | src/matching/matching_engine.cpp:163-167 | in every reachable state the remainder is refused if and only if the order is a limit order, less than its quantity is offered within the limit, and the rest would not be admitted; it traded first if and only if anything was offered; all other fates are exact too |
| `Refusals.OverflowIff` | src/book/price_level.cpp:22-25 | on a tick of the ladder it is refused if and only if it does not fit beside what rests at its price plus the final slices of all completing fills there |
| `Ledger.StepMoves` | src/matching/matching_engine.cpp:25-53 | one event changes the quantity resting under a number by exactly what its journal entries say |
| `Ledger.Conservation` | src/matching/matching_engine.cpp:112-167 | on every run, submitted equals executed plus reduced plus cancelled plus discarded or refused plus still resting, for every sequence number |
| `Reports.JournalReported` | src/matching/matching_engine.cpp:25-53 | that journal lists exactly what the events and outcomes of the run tell, in order: orders with side and quantity, executions with both ids, lapsed remainders, reductions and cancellations |
| `Reports.SubmittedOnce` | src/matching/matching_engine.cpp:112-113 | an accepted order's number counts the numbers taken up to it, exactly its quantity is submitted under that number over the whole run, and nothing under numbers other engines took |
| `Accounting.BoughtIsSold` | src/matching/matching_engine.cpp:147-151 | on every run the buy orders have executed as much in total as the sell orders |
| `Accounting.AggregateAccounting` | src/matching/matching_engine.cpp:150-160 | on every run a level's aggregate is the resting sum plus the final slices of all completing fills there, and equals the sum if and only if there was none |
| `Findings.AggregateDrifts` | src/matching/matching_engine.cpp:150-157 | for every price and quantity, a sale bought back leaves an empty level whose aggregate is the whole quantity |
| `Findings.DriftedLevelRefuses` | src/book/price_level.cpp:22-25 | after the largest quantity was sold and bought back at a price, a third order of any quantity is accepted and refused on the empty level |
| `Findings.RefusedAfterTrading` | src/matching/matching_engine.cpp:163-167 | for every limit without a level, out of range or off tick, a two-event run from the empty book trades up to it and only then has the remainder refused |
| `Findings.DirectInsertionCrosses` | src/book/order_book.cpp:19-24 | for every price, a run from the empty book in which a direct buy at a resting ask's price is accepted and crosses it |
| `SpscQueue.FullTest` | include/lob/concurrency/spsc_event_queue.hpp:77-89 | the 64-bit difference of cursors at most a capacity apart is the difference of the unbounded ones |
| `SpscQueue.EmptyTest` | include/lob/concurrency/spsc_event_queue.hpp:103-109 | wrapped cursors within a capacity are equal exactly when the unbounded ones are |
| `SpscQueue.SlotIsAt` | include/lob/concurrency/spsc_event_queue.hpp:137-140 | masking a wrapped cursor selects the slot of the unbounded one |
| `SpscQueue.ConstructKeeps` | include/lob/concurrency/spsc_event_queue.hpp:90-90 | construction always hits a dead slot whose last destruction is ordered before it, and no other slot |
| `SpscQueue.StoreTailKeeps` | include/lob/concurrency/spsc_event_queue.hpp:91-95 | publishing the tail keeps the invariant across the wrap |
| `SpscQueue.TakeKeeps` | include/lob/concurrency/spsc_event_queue.hpp:110-111 | the event moved out is the oldest one pushed and not yet popped, from a live slot |
| `SpscQueue.DestroyKeeps` | include/lob/concurrency/spsc_event_queue.hpp:112-112 | destruction ends exactly that slot's life and makes it the next free one of the window |
| `SpscQueue.StepKeeps` | include/lob/concurrency/spsc_event_queue.hpp:76-117 | every atomic step of either thread, with any permitted stale load, keeps the invariant |
| `SpscQueue.RunRefines` | include/lob/concurrency/spsc_event_queue.hpp:76-117 | for every interleaving of any length, the ring with wrapping cursors is possible exactly when the protocol with unbounded cursors over a plain list is, and ends in the same state |
| `SpscQueue.RunSafe` | include/lob/concurrency/spsc_event_queue.hpp:76-117 | no live slot is overwritten, no dead slot read, no unordered access; popped is a prefix of pushed; at most a capacity inside; unpopped events are intact in their slots |
| `SpscQueue.AccessesOrdered` | include/lob/concurrency/spsc_event_queue.hpp:85-115 | in every interleaving an event is constructed only in a dead slot whose last destruction was seen published, and moved and destroyed only in a live slot whose construction was seen published, with the oldest unpopped event in it |
| `SpscQueue.PushesLatest` | include/lob/concurrency/spsc_event_queue.hpp:90-95 | only publishing the tail adds to what was pushed, and it adds exactly the event of the latest call |
| `SpscQueue.PushRefusal` | include/lob/concurrency/spsc_event_queue.hpp:85-88 | a push is refused exactly when the head it read is a whole capacity behind; on a queue with room exactly when the load also missed a pop |
| `SpscQueue.PopRefusal` | include/lob/concurrency/spsc_event_queue.hpp:105-108 | a pop is refused exactly when the tail it read is the head; on a non-empty queue exactly when the load also missed a push |
| `SpscQueue.RefusedWithRoom` | include/lob/concurrency/spsc_event_queue.hpp:85-88 | for every capacity a run refuses a push although a slot is free and no pop is under way |
| `SpscQueue.RefusedWithEvent` | include/lob/concurrency/spsc_event_queue.hpp:105-108 | for every capacity a run refuses a pop although an event waits and no push is under way |
| `SpscQueue.WaitFree` | include/lob/concurrency/spsc_event_queue.hpp:30-32 | a call under way always has a step it can make, only its own steps move it, and it returns within four (push) or five (pop) of them after the first |
| `SpscQueue.DestroyAll` | include/lob/concurrency/spsc_event_queue.hpp:64-70 | between calls the destructor's wrapping loop terminates, destroys exactly the events not popped, in order, and leaves no live slot |

## Left out

- The tools, benchmarks, viewer, file mapping, CSV and ITCH decoding, timing and JSON output.
- Page mapping, alignment, placement construction and laundering: a page is a value with its free chain
  and flags, a pointer is a page number and an offset, and the pool's address-to-page map is the page
  number itself.
- Allocation failure and the error branches of page creation.
- The queue's `sizeApprox`, which is diagnostic and unsynchronised, and cache-line padding.
- Rounding of the load-factor test above 2^53 and overflow of capacities: the load test is exact and
  sizes are unbounded.
- Orders and their links live in one explicit memory from addresses to order values rather than in one
  heap object each; level pointers are a side and an index. The index, levels, ladders, pool, book and
  engine are classes updated in place; a pool page is a value inside the pool's sequence of pages.
- The probe and rehash loops that the code repeats in several functions are written once.
- Error branches that agreement of the structures rules out, such as an occupied level without a head,
  are shown dead instead of returned.
- The overloads that fill a caller's vector or return a fresh one, and plain accessors.
