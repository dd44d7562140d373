# Liquidity Arena: the matching engine, its queues and its wire, in Dafny

A limit order book with price-time priority, the engine that matches against it, the lock-free queues
that connect it to the I/O thread, the framing of its messages, and the simulator's event loop. Two
layers describe the book. On values (`Book.dfy` to `Runs.dfy`), a book is an id-indexed map of orders and
one queue of ids per price; the properties of single operations and of whole runs are proved there. On
the heap (`ObjectPool.dfy` to `MatchingEngine.dfy`), pool slots, intrusive lists, level objects, the id map
and the cached best prices are mutated as the C++ does, and every method is proved to do to the book it
represents what the operation on values does. So the run-level theorems hold of the heap engine:
`MatchingEngine.ProcessAll` ends in the state, fills and events that `Engine.After`, `Engine.Fills` and
`Engine.Events` define.

Files, from the bottom up:

| file | what it holds |
|---|---|
| `Types.dfy`, `Queues.dfy` | prices, orders, constants; sequences without repetition |
| `Book.dfy`, `BookInvariants.dfy` | the book as a value, its operations, the ownership partition `WF` |
| `Matching.dfy`, `Priority.dfy`, `Execution.dfy` | the matching loop, price-time priority, remainders and prices |
| `Settlement.dfy`, `NewOrders.dfy`, `Orderly.dfy`, `Totals.dfy`, `Depth.dfy` | new orders, the uncrossed book, level totals, snapshots |
| `Engine.dfy`, `Ledger.dfy`, `Caches.dfy`, `SellSide.dfy`, `Runs.dfy`, `Departures.dfy`, `HiddenAsks.dfy` | commands, events and runs; conservation; when the cached prices and price-time priority are right; run theorems; concrete departures |
| `ObjectPool.dfy`, `PriceLevel.dfy`, `BookRep.dfy`, `BookSteps.dfy` | pool, intrusive list, what the heap stands for |
| `OrderBook.dfy`, `Sessions.dfy`, `MatchingEngine.dfy` | the mutable order book and engine |
| `Spsc.dfy`, `Pipeline.dfy`, `Progress.dfy` | the queue as atomic steps, the two threads, and that they get on |
| `Wire.dfy`, `Messages.dfy`, `Layouts.dfy`, `Framing.dfy` | packed fields, messages and their bytes, frames in a stream |
| `Server.dfy`, `Client.dfy`, `Gateway.dfy` | the server's reads and dispatch, the Python client's polls, the way round from wire to wire |
| `Simulator.dfy` | the event loop |

How things are stated:

- The order in which a hash map hands out its keys is a parameter, `HashOrder`: any permutation, which may
  differ at every scan. Everything is proved for all of them.
- `WF` is the ownership partition: every order is queued once, on its own side at its own price, no level
  is empty, and no more orders are held than the pool has slots. On the heap, `OrderBook.Valid` adds that the id map
  points to distinct live slots, that there are as many of these as the pool has given out, and that the
  free list is acyclic and complete.
- `Tidy` is `WF` with both cached prices right, no spent order resting, and no bid at or above an ask.
- Orderly commands are: limit and iceberg orders, market orders that leave a remainder, cancels,
  same-price modifies, and modifies to a price, not the sentinel, that does not reach the opposite best.
- A load of the other thread's queue index returns any value of that index not older than the one seen
  before.
- Quantities, totals and fees are unbounded integers; prices are 64-bit. `Runs.FeesFit` and
  `Runs.CountersFit` give bounds under which the fees of a fill and of a run fit 64 bits.
- The simulator's times, floating-point numbers in the original, are reals here.

Where the code departs from its comments, the code is modelled, and the condition under which it does meet
the comment is proved:

- A market order is taken out after matching only if something is left of it
  (`engine/src/matching_engine.cpp:133`), though line 137 says it never rests. A filled one stays, spent, at a
  sentinel price that is the cached best of its side (`Orderly.MarketStaysIffFilled`, `Runs.MarketTidyIff`,
  `Orderly.SpentOrderTakesOverTheCache`, `Runs.SpentMarketOrderRests`). For a sell that price is the one that
  means "no asks": from then on buys see none of the asks that rest (`Caches.SpentSellHidesAsks`,
  `Caches.BuysSeeNoAsks`, `Departures.MarketSellHidesTheAsk`), and a limit buy at their price rests and crosses
  them (`Caches.HiddenAskCrosses`, `HiddenAsks.LimitBuyCrosses`). The next ask to come is traded ahead of any
  cheaper one (`Caches.NextAskTakesOver`, `Caches.DearerAskFirst`), so a buy may pay less as it goes on
  (`HiddenAsks.BuyPaysLess`), though never more than its limit (`Execution.MatchWithinLimit`); and while the spent
  sell stands, a market sell that is killed hides the asks again, though it leaves no order behind
  (`Settlement.MarketFrame`, `HiddenAsks.KilledSellHidesTheAsks`). So price-time priority, `Priority.MatchIsGreedy`,
  needs a right opposite cache, and fails for buys exactly when the ask cache is wrong and an ask is within reach
  (`Caches.BuysGreedyIff`; for sells see `SellSide.SellsGreedyIff`). Filling a market sell is the only thing that
  makes it wrong, a modify to the sentinel price apart (`Caches.CommandCaches`, `Caches.AsksRightIff`), so priority holds over every run
  for sells and, until then, for buys (`Caches.PriorityOverRuns`). A later match passes a spent order with a fill of
  zero (`Execution.MatchPositiveIff` says exactly when), and `engine/include/price_level.hpp:101` then asserts that
  zero is positive; assertions are taken to be compiled out, and the loop still ends (`Matching.MatchOnceWF`).
- A price-changing modify re-adds without matching (`engine/src/order_book.cpp:145-156`) and can leave the book
  crossed (`Orderly.RepriceUncrossedIff`, `Departures.ModifyCanCross`). It checks no price either: only the server
  keeps a modify from naming the sentinel, which spoils the cached best (`Orderly.RepriceToSentinel`).
- A display slice is never found consumed, so an iceberg is never replenished and keeps its time priority,
  against the description in `engine/include/matching_engine.hpp:15-16` (`Matching.NeverReplenishes`). Its level
  counts only the slice when it is added but loses the whole remainder when it is removed
  (`Totals.InsertExactIff`, `Departures.IcebergTotalFallsShort`). Over every run a level's total, and so the depth
  quantity, is what rests there less what icebergs hid on being pushed there since the level was made
  (`Runs.TotalsOverRuns`); it can be negative (`Departures.TotalGoesNegative`).
- A command that does not fit the queue is silently dropped (`engine/src/tcp_server.cpp:314`). The pipeline
  theorems speak of the commands whose push returned true. A stop may likewise lose the one event the engine is
  trying to push (`Pipeline.OneEventEach`).

## Model

| member | source | states |
|---|---|---|
| Matching.MatchOnceWF | engine/src/matching_engine.cpp:194-237 | each turn of the matching loop keeps the ownership partition and lowers remaining quantity plus number of resting orders, also past makers with nothing left, so the loop ends |
| Matching.NeverReplenishes | engine/src/matching_engine.cpp:228-235 | the display remainder the loop computes is at least 1: the replenish step is dead |
| Matching.MatchWF | engine/src/matching_engine.cpp:190-240 | a match ends well-formed, with the taker still in the book and unable to match further |
| Matching.MatchAccounts | engine/src/matching_engine.cpp:218-226 | every order's filled quantity grew by exactly what the emitted fills traded for it, and an order that is gone traded all it had |
| Matching.MatchOwnSide | engine/src/matching_engine.cpp:255-259 | the taker's own side is untouched by a match except for its level's total, which falls by what was traded |
| Matching.MatchCache | engine/src/order_book.cpp:217-236 | the cached best of the side being walked stays right through the whole match |
| Priority.MatchIsGreedy | engine/src/matching_engine.cpp:190-240 | price-time priority, where the opposite cached best is right: the fills are exactly the greedy walk over eligible opposite orders, best price first, front of queue first, icebergs cut into slices of at most the display quantity |
| Priority.LineNoDup | engine/include/price_level.hpp:33-49 | the line of eligible makers names no order twice |
| Priority.EligibleFront | engine/src/matching_engine.cpp:194-212 | where the opposite cached best is right, the loop goes on exactly while the greedy walk has a quote left, and its maker is that quote |
| Execution.GreedySum | engine/src/matching_engine.cpp:214-224 | the walk executes all that is wanted or all there is, whichever is less |
| Execution.SlicesSum | engine/src/matching_engine.cpp:216-221 | the slices of an iceberg are positive, at most the display quantity, and add up to what is left of it |
| Execution.MatchRemainder | engine/src/matching_engine.cpp:190-240 | where the opposite cached best is right, match_order returns max(0, quantity minus eligible opposite liquidity) |
| Execution.MatchPrices | engine/src/matching_engine.cpp:194-206 | where the opposite cached best is right, prices never improve as the match goes on, and without spent makers every fill is positive |
| Execution.MatchWithinLimit | engine/src/matching_engine.cpp:201-206 | in every well-formed book, whatever the caches, each fill is with an order of the opposite side at that order's price, and never beyond the taker's limit |
| Execution.MatchPositiveIff | engine/src/matching_engine.cpp:223-224 | where the opposite cached best is right, every fill of a match is positive exactly if no spent order stands in the line before the taker is served |
| Execution.LineWorsens | engine/src/order_book.cpp:164-180 | prices along the line of makers only worsen |
| LimitOrderBook.ScanIsBest | engine/src/order_book.cpp:278-302 | a rescan finds the best price in any visiting order, unless an ask scan meets the sentinel |
| LimitOrderBook.AskScanDependsOnOrder | engine/src/order_book.cpp:291-302 | an ask scan that meets the sentinel price gives different results in different visiting orders |
| BookInvariants.InsertWF | engine/src/order_book.cpp:11-49 | adding an admitted order keeps the ownership partition |
| BookInvariants.RemoveWF | engine/src/order_book.cpp:217-241 | removing an order keeps the ownership partition and leaves one order less |
| BookInvariants.UnqueuedCacheOK | engine/src/order_book.cpp:226-235 | removal never spoils a right cached best |
| BookInvariants.CancelWF | engine/src/order_book.cpp:96-107 | a cancel, of a known id or not, keeps the ownership partition |
| BookInvariants.ModifyDownInPlace | engine/src/order_book.cpp:127-143 | a same-price modify leaves every queue and every other order as it was and the order with the new quantity |
| BookInvariants.RepriceIsRemoveThenInsert | engine/src/order_book.cpp:145-156 | a price change cannot lose the order: its re-add is always admitted, even with a full pool |
| BookInvariants.ModifyWF | engine/src/order_book.cpp:109-157 | every modify, allowed or not, keeps the ownership partition |
| Settlement.SettleWF | engine/src/matching_engine.cpp:103-172 | processing a new order keeps the ownership partition |
| NewOrders.NewOrderOutcome | engine/src/matching_engine.cpp:103-172 | a new order changes nothing exactly if its quantity, its price (unless a market order) or, for an iceberg, its display quantity is not positive, its id is known or the pool is full; otherwise it stays exactly if something is left, a market order if nothing is, with every field as sent, last at its price, and counted there by its quantity, or display quantity, less what it traded |
| NewOrders.FirstTrade | engine/src/matching_engine.cpp:194-224 | a match begins exactly if something is wanted and a price is advertised and accepted; then with the order queued longest at that price, at that price, for the least of what is wanted, what is left of it and, for an iceberg, its display quantity |
| NewOrders.FirstTradeIsBest | engine/src/matching_engine.cpp:194-206 | for a sell, and for a buy where the ask cache is right, no opposite price is better than the first trade's |
| NewOrders.FillsAreSlices | engine/src/matching_engine.cpp:216-221 | in every book no fill is negative or takes more of an iceberg than its display quantity |
| Settlement.NotCrossingRests | engine/src/matching_engine.cpp:152-160 | skipping the match for an order that does not cross gives what matching would |
| Settlement.TakerConserved | engine/src/matching_engine.cpp:118-171 | quantity of a new order = traded + resting + killed |
| Settlement.OthersConserved | engine/src/matching_engine.cpp:242-259 | every other order loses exactly what the fills traded for it |
| Settlement.PushedThenUnqueued | engine/src/matching_engine.cpp:123-136 | adding, trading and taking out again restores the queues at any price and from any cache, and the totals if the whole order had been counted; the cached best is the one `BestAfter` names |
| Settlement.LeavesNoTrace | engine/src/matching_engine.cpp:118-138 | an order that leaves, in any book: the queues of its own side are as they were, the totals too unless it is an iceberg, and the cached best is the one `BestAfter` names |
| Settlement.LeavesBestIff | engine/src/order_book.cpp:217-236 | whether an order that leaves restores its cached best: on bids always; on asks exactly if the cache is right or the order's price does not touch it, unless a rescan that meets the sentinel decides |
| Settlement.MarketFrame | engine/src/matching_engine.cpp:130-137 | a killed market buy restores the bids exactly, in every book; a killed market sell restores the asks exactly if and only if the ask cache is right, or is the sentinel with an order resting there; the levels it restores always |
| Orderly.MarketStaysIffFilled | engine/src/matching_engine.cpp:130-137 | where the opposite cached best is right, a market order stays in the book exactly when the other side can fill it, and then it is spent |
| Orderly.SpentOrderTakesOverTheCache | engine/src/order_book.cpp:37-46 | a filled market order stands at the sentinel price, which is then the cached best of its side |
| Orderly.SettleTidy | engine/src/matching_engine.cpp:141-171 | a new order never leaves the book crossed or a cache wrong: limit and iceberg orders, and market orders with a remainder |
| Orderly.RestingStopsShort | engine/src/matching_engine.cpp:194-206 | where the opposite cached best is right, an order that rests has stopped short of every opposite price |
| Orderly.UncrossedIsBestBelow | engine/src/matching_engine.cpp:152-158 | with right caches, no bid at or above an ask means best bid below best ask when both exist |
| Orderly.RepriceUncrossedIff | engine/src/order_book.cpp:145-156 | a price-changing modify keeps the book orderly exactly when the new price is not the sentinel and does not reach the opposite best |
| Orderly.RepriceToSentinel | engine/src/order_book.cpp:109-156 | a modify to the sentinel price is accepted and makes the cached best of its side wrong |
| Orderly.CancelTidy | engine/src/order_book.cpp:96-107 | a cancel keeps the book orderly |
| Orderly.FacingIsLiquidity | engine/src/matching_engine.cpp:118-130 | the liquidity a new order faces can be read off the book before it is entered |
| Totals.InsertExactIff | engine/src/order_book.cpp:74-79 | level totals stay exact on adding exactly when the whole remainder is counted, which for an iceberg it is not |
| Totals.SettleDrift | engine/src/order_book.cpp:74-92 | a new order changes by how much a level's total falls short only at its own price, by the part of it that is not shown, even if it leaves again; a level that is gone falls short of nothing |
| Totals.ModifyDrift | engine/src/order_book.cpp:127-156 | a modify in place changes no shortfall; one that changes the price adds the part not shown at the new price |
| Totals.RemoveDrift | engine/include/price_level.hpp:76-96 | removal changes no level's shortfall |
| Totals.TradeDrift | engine/src/matching_engine.cpp:245-259 | nor do the two updates of a fill |
| Totals.TradeExact | engine/src/matching_engine.cpp:245-259 | totals are exact between the two updates of a fill and the removal of its maker |
| Totals.RemoveExact | engine/include/price_level.hpp:76-96 | removal keeps totals exact |
| Totals.SettleExact | engine/src/matching_engine.cpp:103-172 | a new order that is not an iceberg keeps totals exact |
| Totals.ModifyExact | engine/src/order_book.cpp:109-157 | a modify of an order that is not an iceberg keeps totals exact |
| Depth.TopLevelsAreTop | engine/src/order_book.cpp:188-215 | the depth list has min(n, levels) entries, strictly sorted, each a level of the book, and every level not shown is worse |
| Depth.CollectSortCut | engine/src/order_book.cpp:194-213 | collect, sort and cut give the top levels whatever the order of the hash map |
| Depth.SnapshotShows | engine/src/matching_engine.cpp:282-306 | in every book, each side of the message has min(10, levels) entries, strictly sorted, each a level with its total, every level not shown is worse, and zeros follow |
| Depth.SnapshotLists | engine/src/matching_engine.cpp:282-306 | the bid fields of every message list the bids and the ask fields the asks |
| Depth.SnapshotReadsTheBook | engine/src/matching_engine.cpp:282-306 | with a right cache the first price is the advertised best and none is shown exactly if none is advertised; with exact totals each quantity is what rests at that price |
| Engine.After | engine/src/matching_engine.cpp:50-101 | every state of every run of any commands keeps the ownership partition, and no bid beats the cached best bid |
| Engine.OneEventPerCommand | engine/src/matching_engine.cpp:94-100 | a run emits exactly one event per command that names an operation |
| Engine.EventsAnswer | engine/src/matching_engine.cpp:50-101 | over any run the k-th event answers the k-th command: to a cancel of an unknown id, and to a modify of an unknown id or with a quantity not positive or above what is left, a rejection for the client that sent it with that reason; to all else the book after it |
| Engine.CountersAdd | engine/src/matching_engine.cpp:103-188 | over any run the order and fill counters are the numbers of new orders and fills, and every other command is counted as a cancel or a change, or rejected |
| Ledger.CommandBalances | engine/src/matching_engine.cpp:103-188 | one command: submitted + resting before = executed + withdrawn + resting after, for every id |
| Ledger.QuantityIsConserved | engine/src/matching_engine.cpp:103-188 | over every run of any commands, submitted = executed + resting + withdrawn for every id, through re-adds, icebergs and spent market orders |
| Ledger.SidesTradeAlike | engine/src/matching_engine.cpp:242-246 | over every run, bids have traded exactly as much as asks |
| Runs.OrderlyRunsStayTidy | engine/src/matching_engine.cpp:103-188 | after every orderly command of any run: uncrossed, both caches right, no spent order |
| Caches.NewOrderCaches | engine/src/matching_engine.cpp:118-138 | a new order never makes the bid cache wrong, and the ask cache exactly if it is a market sell that is fully filled |
| Caches.CommandCaches | engine/src/matching_engine.cpp:50-101 | so does any command, in any book, that is not a modify to the sentinel |
| Caches.CachesOverRuns | engine/src/order_book.cpp:278-302 | over every run without such modifies the bid cache is right, and the ask cache until a market sell is fully filled, crossed books and spent buys notwithstanding |
| Caches.AsksRightIff | engine/src/order_book.cpp:278-302 | over those runs the ask cache is right after every prefix exactly if no market sell is ever fully filled |
| Caches.PriorityOverRuns | engine/src/matching_engine.cpp:190-240 | price-time priority over those runs, for every sell, and for every buy until a market sell is fully filled |
| Caches.BuysGreedyIff | engine/src/matching_engine.cpp:194-212 | a buy is matched in price-time priority exactly if the ask cache is right or no ask is within its reach |
| SellSide.SellsAreGreedy | engine/src/matching_engine.cpp:190-240 | in every book a sell is matched in price-time priority over all bids but those at the sentinel price |
| SellSide.SeenFront | engine/src/matching_engine.cpp:194-212 | in every book the loop of a sell goes on exactly while the walk over the bids above the sentinel has a quote left, and its maker is that quote |
| SellSide.SellRemainder | engine/src/matching_engine.cpp:190-240 | in every book a sell is left with max(0, quantity minus what the bids above the sentinel offer it) |
| SellSide.SellPositiveIff | engine/src/matching_engine.cpp:223-224 | in every book every fill of a sell is positive exactly if no spent order stands among the bids above the sentinel before the sell is served |
| SellSide.SellPricesWorsen | engine/src/matching_engine.cpp:194-206 | in every book the prices of a sell's fills never improve as the match goes on |
| SellSide.SellsGreedyIff | engine/src/matching_engine.cpp:194-212 | a sell is matched in price-time priority over all bids exactly if none within its reach rests at the sentinel or the others serve it |
| Caches.SpentSellHidesAsks | engine/src/matching_engine.cpp:130-137 | after a fully filled market sell all asks rest as before and the cache says there is none |
| Caches.BuysSeeNoAsks | engine/src/matching_engine.cpp:196-198 | with the ask cache at the sentinel no buy trades, whatever rests |
| Caches.HiddenAskCrosses | engine/src/matching_engine.cpp:152-160 | with the ask cache at the sentinel a limit buy at or above a resting ask rests, and leaves the book crossed |
| Caches.RestingAskShows | engine/src/order_book.cpp:42-46 | an ask that comes to rest beside a spent sell becomes the cached best |
| Caches.KilledSellHides | engine/src/matching_engine.cpp:130-137 | a killed market sell then puts the cache back to the sentinel and leaves every level as it was |
| Caches.NextAskTakesOver | engine/src/order_book.cpp:42-46 | the next ask then becomes the cached best, whatever its price |
| Caches.DearerAskFirst | engine/src/matching_engine.cpp:194-212 | a buy that reaches a cached best that is not the cheapest ask trades with it first, against price priority |
| Caches.BidCacheIff | engine/src/order_book.cpp:278-289 | in a well-formed book the bid cache is right exactly if no bid rests at the sentinel |
| Runs.IcebergFreeRunsStayExact | engine/include/price_level.hpp:47-103 | in every run without icebergs every level total is the sum of what rests there |
| Runs.TotalsOverRuns | engine/include/price_level.hpp:47-103 | over every run of any commands a level's total is the sum of what rests there less what icebergs hid there since the level was made |
| Runs.SnapshotsAreTrue | engine/src/matching_engine.cpp:282-306 | every book update of an orderly run shows the top levels in strict order, padded with zeros, the first price the advertised best, each quantity what rests there less what icebergs hide, which without icebergs is nothing |
| Runs.CancelKeepsPositions | engine/src/order_book.cpp:96-107 | a cancel removes one order from its queue and moves nothing else |
| Runs.RepriceKeepsPositions | engine/src/order_book.cpp:145-156 | a price change puts the order, with the new quantity and nothing filled, at the back of the new level and moves nobody else; an iceberg stays one with its display quantity, which is what its new level counts, and any other order becomes a limit order counted whole; the old level loses what was left |
| Runs.ModifyOtherwise | engine/src/order_book.cpp:109-143 | every other modify: an unknown id, a quantity that is not positive or above what is left, or the same price and quantity, change nothing; a smaller quantity at the same price changes that quantity and its level's total and leaves kind, display quantity and every place alone |
| Runs.MarketTidyIff | engine/src/matching_engine.cpp:130-137 | a market order leaves the book orderly exactly when it is not fully filled |
| Runs.SpentMarketOrderRests | engine/src/matching_engine.cpp:132-137 | a concrete run after which a filled market buy is still in the book |
| Departures.ModifyCanCross | engine/src/order_book.cpp:149-154 | a concrete run in which a modify leaves the book crossed |
| Departures.MarketSellHidesTheAsk | engine/src/matching_engine.cpp:130-137 | a concrete run: a market sell fills, an ask of five still rests at 100, and a market buy of five finds nothing |
| HiddenAsks.LimitBuyCrosses | engine/src/matching_engine.cpp:152-160 | a concrete run: a limit buy at 100 rests where an ask rests at 100 |
| HiddenAsks.KilledSellHidesTheAsks | engine/src/matching_engine.cpp:130-137 | a concrete run: asks rest at 100 and 105, a market sell finds no bid and is killed, and the cached best goes from 105 to none with no level changed |
| HiddenAsks.BuyPaysLessIff | engine/src/order_book.cpp:291-302 | in the book of that run the buy's prices improve exactly if the rescan after its first fill meets the sentinel first |
| HiddenAsks.BuyPaysLess | engine/src/matching_engine.cpp:194-206 | a concrete run: asks rest at 100 and 105, and a buy of six at 110 is filled at 105 and then at 100 |
| Departures.IcebergTotalFallsShort | engine/src/order_book.cpp:74-79 | a concrete iceberg whose level total is not what rests there |
| Departures.TotalGoesNegative | engine/include/price_level.hpp:100-103 | a concrete run: an iceberg of ten that shows four, a buy of five, and a level total of minus one with five resting |
| Runs.FeesFollowNotional | engine/src/matching_engine.cpp:261-267 | over every run, rebates and taker fees are their rates times the traded value, and the house keeps the difference |
| Runs.FeesFit | engine/include/types.hpp:54-67 | the fees of a fill fit 64 bits if the bounds on price, quantity and rate multiply to no more than that |
| Runs.DefaultFeesFit | engine/include/types.hpp:54-67 | at the default rates they do for prices up to 2^30 and any 32-bit quantity; these are 2 for the maker and 3 for the taker |
| Runs.CountersFit | engine/src/matching_engine.cpp:261-267 | the fee counters of a run fit 64 bits if the bounds on price, traded volume and rate multiply to no more than that |
| ObjectPool.FreeListIsComplete | engine/include/object_pool.hpp:54-67 | the free list is empty exactly when every slot is in use |
| ObjectPool.FreeListPush | engine/include/object_pool.hpp:70-80 | giving a slot back keeps the free list acyclic and complete |
| ObjectPool.Pool.constructor | engine/include/object_pool.hpp:38-44 | the free list threaded by the constructor holds every slot |
| ObjectPool.Pool.Allocate | engine/include/object_pool.hpp:54-67 | refuses exactly when all slots are in use, otherwise hands out a slot that was free, holding a blank object |
| ObjectPool.Pool.Deallocate | engine/include/object_pool.hpp:70-80 | frees exactly that slot |
| PriceLevels.UnlinkedRest | engine/include/price_level.hpp:79-95 | rewiring the neighbours of a node leaves a well-linked list of the others in order |
| PriceLevels.UnlinkKeepsRep | engine/include/price_level.hpp:76-96 | with the head, tail, count and total updates, the level represents the sequence without that node |
| PriceLevels.PriceLevel.PushBack | engine/include/price_level.hpp:33-49 | the level represents its sequence with the slot appended |
| PriceLevels.PriceLevel.Remove | engine/include/price_level.hpp:76-96 | deletes exactly one node from anywhere, keeps the others in order, clears its links |
| PriceLevels.PriceLevel.PopFront | engine/include/price_level.hpp:53-72 | takes the front, or NULL from an empty level |
| PriceLevels.PriceLevel.QueueVolumeAhead | engine/include/price_level.hpp:108-117 | the sum of what is left of the orders in front, or of all orders if the given one is not there |
| PriceLevels.PriceLevel.ModifyQtyDown | engine/include/price_level.hpp:122-131 | changes one order's quantity and the total, and no link |
| BookSteps.EnlistedModel | engine/src/order_book.cpp:16-48 | the heap changes of an add stand for inserting into the book |
| BookSteps.DetachedModel | engine/src/order_book.cpp:217-236 | the heap changes of taking an order out of its level stand for dequeuing it, dropping an empty level and rescanning |
| BookSteps.ReleasedModel | engine/src/order_book.cpp:238-241 | freeing a slot and its id entry stands for forgetting the order |
| BookSteps.RewrittenModel | engine/src/matching_engine.cpp:245-246 | rewriting a slot's order without its links changes that order only |
| BookSteps.RetotalledModel | engine/include/price_level.hpp:100-103 | changing one level's total changes that level only |
| OrderBooks.OrderBook.UpdateBestBid | engine/src/order_book.cpp:278-289 | the cached bid becomes the scan of the bid prices in map order |
| OrderBooks.OrderBook.UpdateBestAsk | engine/src/order_book.cpp:291-302 | the cached ask becomes the scan of the ask prices in map order |
| OrderBooks.OrderBook.AddOrder | engine/src/order_book.cpp:11-49 | refuses a known id or a full pool; otherwise the book is the old one with the order inserted |
| OrderBooks.OrderBook.AddIcebergOrder | engine/src/order_book.cpp:51-94 | the same, counting only the display slice in the level |
| OrderBooks.OrderBook.RemoveOrderFromLevel | engine/src/order_book.cpp:217-236 | the order leaves its queue, an emptied level goes, the cached best is found again if needed, and the slot is still held |
| OrderBooks.OrderBook.ReleaseOrder | engine/src/order_book.cpp:238-241 | the slot is given back and the id forgotten, and pool and id map still agree |
| OrderBooks.OrderBook.CancelOrder | engine/src/order_book.cpp:96-107 | succeeds exactly for a known id, and the book becomes the cancelled one |
| OrderBooks.OrderBook.ModifyOrder | engine/src/order_book.cpp:109-157 | succeeds exactly for a known id and a positive quantity not above the remainder, and the book becomes the modified one |
| OrderBooks.OrderBook.BestOrderIsFront | engine/src/order_book.cpp:164-180 | the slot at the head of the cached best level is the order queued longest there; NULL exactly if there is none |
| OrderBooks.OrderBook.GetDepth | engine/src/order_book.cpp:188-215 | returns the top levels |
| OrderBooks.OrderBook.LookupDistinct | engine/src/order_book.cpp:159-162 | distinct ids are in distinct slots |
| MatchingEngines.MatchingEngine.ExecuteFill | engine/src/matching_engine.cpp:242-280 | fills both parties at the maker's price, shrinks both levels, counts the fees and hands the callback maker, taker, price, quantity, the maker's fee, negative, and the taker's |
| MatchingEngines.MatchingEngine.MatchTurn | engine/src/matching_engine.cpp:208-236 | one turn on the heap is one turn on the book |
| MatchingEngines.MatchingEngine.MatchOrder | engine/src/matching_engine.cpp:190-240 | the loop over the heap ends with the book, fills and fees of the matching function, and returns what is left |
| MatchingEngines.MatchingEngine.ProcessNewOrder | engine/src/matching_engine.cpp:103-172 | validation, entry, matching and removal on the heap are those of the sequential engine |
| MatchingEngines.MatchingEngine.ProcessCancel | engine/src/matching_engine.cpp:174-180 | cancels and counts exactly for a known id |
| MatchingEngines.MatchingEngine.ProcessModify | engine/src/matching_engine.cpp:182-188 | modifies and counts exactly when allowed |
| MatchingEngines.MatchingEngine.Pad | engine/src/matching_engine.cpp:290-303 | the message arrays hold the depth list followed by zeros |
| MatchingEngines.MatchingEngine.GetBookSnapshot | engine/src/matching_engine.cpp:282-306 | the message is the snapshot of the book |
| MatchingEngines.MatchingEngine.ProcessClientCommand | engine/src/matching_engine.cpp:50-101 | state, fills and event are those of the sequential engine |
| MatchingEngines.MatchingEngine.ProcessAll | engine/src/matching_engine.cpp:24-39 | over a whole queue of commands the engine ends in the sequential engine's state having reported its fills with their fees and emitted its events, in order; counters that were the totals of what was reported still are |
| Sessions.MatchedStep | engine/src/matching_engine.cpp:194-237 | a turn leads nearer to the same end of the loop |
| Sessions.RunTallied | engine/src/matching_engine.cpp:261-279 | over every run, the fill counter and both fee counters stay the totals of what the callback was handed |
| Sessions.ReportsTell | engine/src/matching_engine.cpp:270-278 | one report for each fill, in order: the same maker, taker, price and quantity, the maker's fee minus price times quantity times its rate, the taker's fee price times quantity times its rate |
| Sessions.RunReports | engine/src/matching_engine.cpp:270-278 | over every run, each report names as taker a new order of the run and as maker an order of the other side that rested in the book it met, at the latter's price and within the former's limit, with the fees of that trade |
| SpscProtocol.StepInv | engine/include/spsc_queue.hpp:22-46 | every atomic step of push and pop, with any stale index read, keeps the queue's invariant |
| SpscProtocol.Safety | engine/include/spsc_queue.hpp:22-46 | under every interleaving the popped items are a prefix of the pushed ones and at most capacity items are held |
| SpscProtocol.NoUnreadOverwritten | engine/include/spsc_queue.hpp:26-30 | the slot about to be written holds no unread item |
| SpscProtocol.NoRace | engine/include/spsc_queue.hpp:30-43 | the slot being written is never the one being read |
| SpscProtocol.CommittedIndices | engine/include/spsc_queue.hpp:24-44 | the wrapped index each commit stores is the index of the raised count |
| SpscProtocol.StepRefines | engine/include/spsc_queue.hpp:22-46 | each step is one of a bounded FIFO queue, taking effect at the index store |
| SpscProtocol.Refusals | engine/include/spsc_queue.hpp:26-39 | a push is refused exactly if the ring was full as of the read index it saw, a pop exactly if it was empty; with fresh reads the answers are exact |
| SpscProtocol.PushGoesThrough | engine/include/spsc_queue.hpp:22-33 | four steps of the producer alone put an item in if there is room |
| SpscProtocol.PopGoesThrough | engine/include/spsc_queue.hpp:36-46 | four steps of the consumer alone take the oldest item out if there is one |
| SpscQueues.SpscQueue.Push | engine/include/spsc_queue.hpp:22-33 | run alone, appends exactly if fewer than capacity items are held |
| SpscQueues.SpscQueue.Pop | engine/include/spsc_queue.hpp:36-46 | run alone, takes the front exactly if there is one |
| Pipeline.MoveOK | engine/src/matching_engine.cpp:18-101 | every step of either thread keeps the engine in step with the sequential engine on the commands handled; the engine thread leaves its loop only on a stop |
| Pipeline.Refinement | engine/include/matching_engine.hpp:58-61 | under every interleaving with at most one stop, the events popped are a prefix of the sequential engine's events on the accepted commands |
| Pipeline.OneEventEach | engine/src/matching_engine.cpp:69-99 | pushed, waiting and lost events number the commands handled; at most one is lost, and only by a stop |
| Pipeline.Drained | engine/src/matching_engine.cpp:24-39 | with both queues drained and no stop, the I/O thread has exactly the sequential engine's events, one per accepted command |
| PipelineProgress.Progress | engine/src/matching_engine.cpp:24-39 | from every state the pipeline can be in before a stop, the threads' own moves, with no further command, lead to where every accepted command is handled and both queues are drained |
| PipelineProgress.EventsFollow | engine/src/matching_engine.cpp:24-39 | so from every such state they lead to where the I/O thread has exactly the sequential engine's events, one per accepted command |
| PipelineProgress.CommandGoesIn | engine/include/matching_engine.hpp:58-61 | while the command queue has room, four moves of the I/O thread put a command in and change nothing else |
| PipelineProgress.StopReturns | engine/src/matching_engine.cpp:43-48 | once a stop is called, the engine thread's own moves lead out of its loop from wherever it is, a full event queue included |
| Wire.UnpackPack | simulation/market/tcp_client.py:42-67 | what is packed is unpacked, whatever follows it |
| Wire.PackUnpack | engine/include/message.hpp:188-192 | every byte string of the right size is some packed tuple, and packing what was read gives it back |
| Wire.UnpackPrefix | simulation/market/tcp_client.py:79-85 | a client that knows a prefix of the fields reads the same leading values |
| Messages.FormatSizes | engine/include/message.hpp:83-195 | the sizes of all layouts; the largest message is 269 bytes |
| Messages.Serialize | engine/include/message.hpp:176-184 | writes header and payload at the front of the buffer and nothing behind them |
| Layouts.OrderBytes | simulation/market/tcp_client.py:42-56 | byte by byte: a new order is type 1, length 26, then id, side, type, price, quantity and display quantity, lowest byte first |
| Layouts.CancelBytes | simulation/market/tcp_client.py:59-70 | a cancel is type 2, length 8, and the id |
| Layouts.EngineHeaders | engine/include/message.hpp:127-184 | a fill is type 3 and 44 bytes, a book update type 4 and 264 bytes, a reject type 5 and 9 bytes |
| Layouts.RejectBytes | engine/include/message.hpp:143-150 | a reject holds the id and one byte for the reason |
| Layouts.BookBytes | engine/include/message.hpp:157-169 | each of the 44 numbers of a book update stands at its place |
| Layouts.DigitAt | engine/include/message.hpp:175-184 | the k-th byte of a number is its k-th digit to the base 256 |
| Framing.HeaderIsPacked | simulation/market/tcp_client.py:125-178 | a frame is its type and length packed as a header, and its payload |
| Framing.ParseStream | engine/src/tcp_server.cpp:229-249 | frames sent are the frames parsed, whatever follows |
| Framing.ParseSound | engine/src/tcp_server.cpp:229-249 | a stream is the frames parsed from it followed by a rest with nothing to parse |
| Framing.OversizedIff | engine/src/tcp_server.cpp:233-239 | the connection is given up exactly if an oversized header stands at a frame boundary |
| Framing.ChunkingIndependent | engine/src/tcp_server.cpp:212-259 | however a stream is split into reads: the same frames, the same verdict, the same leftover, less than the limit |
| Server.ClientConn.HandleRead | engine/src/tcp_server.cpp:212-259 | one read over the 4096-byte buffer hands out the parsed frames and keeps less than one message, so there is room for the next |
| Server.ClientConn.ReadAll | engine/src/tcp_server.cpp:212-259 | a whole connection hands out the frames of the bytes read and is dropped exactly if they are oversized; until then reads of up to 3828 bytes get what they ask for, or all that has arrived |
| Server.DispatchMeant | engine/src/tcp_server.cpp:285-353 | field by field, the server decodes what the client packed |
| Server.DispatchOrder | engine/src/tcp_server.cpp:288-316 | a new order is refused by its id, for bad parameters if its quantity, or the price of a limit order, is not positive, as a duplicate if its id is known, and handed on otherwise |
| Server.DispatchModify | engine/src/tcp_server.cpp:331-349 | a modify is refused by its id if its quantity or its price is not positive, and handed on with id, price and quantity otherwise |
| Server.DispatchOthers | engine/src/tcp_server.cpp:285-353 | a payload too short for its type is refused with id 0; other types are ignored |
| Server.ClientToServer | simulation/market/tcp_client.py:158-178 | any messages of the client, in any chunks, reach the server as they were meant |
| Client.TcpClient.Poll | simulation/market/tcp_client.py:180-222 | one poll decodes and consumes what is complete in the buffer, up to the first frame that raises |
| Client.PollsTakePrefix | simulation/market/tcp_client.py:180-222 | whatever the bytes and however they arrive, the polls take the frames of the stream one by one in order, each that raises costs one poll, and none is left after a poll that does not raise |
| Client.PollChunks | simulation/market/tcp_client.py:180-222 | if no frame raises, the polls recover the messages of the stream |
| Client.ServerToClient | simulation/market/tcp_client.py:79-126 | any engine messages, serialized and sent in any chunks, are recovered in order, a fill by its prefix |
| Client.UnknownTypeRaises | simulation/market/tcp_client.py:205-208 | a frame of a type the client does not know raises and is consumed alone |
| Gateway.InboundCommands | engine/src/tcp_server.cpp:285-353 | the commands queued for the bytes of a connection are those its messages ask for, bytes and all |
| Gateway.OrderQueued | engine/src/tcp_server.cpp:288-316 | the frame of a new order becomes a command exactly if the server accepts it; side byte 0 is a bid and 1 an ask, type byte 0 a limit, 1 a market, 2 an iceberg order, and nothing else changes |
| Gateway.CancelQueued | engine/src/tcp_server.cpp:317-330 | the frame of a cancel becomes a cancel of that id by that client |
| Gateway.ModifyQueued | engine/src/tcp_server.cpp:331-349 | the frame of a modify with positive price and quantity becomes a modify to these |
| Gateway.OrderRefused | engine/src/tcp_server.cpp:295-309 | the reject for a refused new order carries its id and reason 0, or 3 if the id is known |
| Gateway.RejectionCodes | engine/include/types.hpp:36-42 | the engine's rejections carry reason 2 for a cancel and 4 for a modify |
| Gateway.NumbersAre | engine/include/message.hpp:157-169 | the order of the numbers of an update on the wire |
| Gateway.NumbersCut | simulation/market/tcp_client.py:109-122 | the client's slices of those numbers are the fields of the update |
| Gateway.WireToWire | engine/src/tcp_server.cpp:212-353 | the client's messages in any chunks, the engine's events on the resulting commands back in any chunks with any rejects of the server's own in between: the client recovers exactly the book updates the sequential engine makes of its messages |
| Gateway.ClientSeesPrefix | engine/src/tcp_server.cpp:135-153 | under every interleaving and whoever pushed the commands, a client sent what was popped has read a prefix of the sequential engine's updates on the accepted commands: none altered, reordered or skipped |
| Gateway.WireToWirePipelined | engine/src/tcp_server.cpp:135-153 | the same through the two threads, at any point of any interleaving: the client has read a prefix of those updates, and all of them once every command is accepted and the queues are drained without a stop |
| Gateway.ClientWillSee | engine/src/matching_engine.cpp:24-39 | and from any point before a stop the threads can go on to where a client sent what was popped has read every update of the commands accepted |
| Simulation.EventQueue.Earliest | simulation/simulator.py:81-97 | finds an event that no other precedes |
| Simulation.EventQueue.Pop | simulation/simulator.py:90-91 | takes out one earliest event and leaves the others |
| Simulation.MovesRemoved | simulation/simulator.py:374-377 | taking an event out lowers the pending moves by one exactly if it is a move |
| Simulation.ScheduleCounts | simulation/simulator.py:339-370 | the schedule has exactly one move a step, one action per agent a step, and a sample every hundred steps |
| Simulation.ScheduleHas | simulation/simulator.py:343-370 | each of them is there at its time: the move at step times dt, each agent's action one latency draw later under its own name, the sample half a step later |
| Simulation.Simulator.ScheduleInitialEvents | simulation/simulator.py:339-370 | pushes the schedule and nothing else |
| Simulation.Simulator.ProcessEvent | simulation/simulator.py:372-398 | adds no move, nothing in the past, and for a move one action of NOISE_0 per extra order, at its time plus its own latency draw; the rest of the queue stays |
| Simulation.Simulator.Run | simulation/simulator.py:587-594 | the loop ends, time never runs backwards, and an unstopped run has processed all steps and every event |

## Left out

- Sockets, polling, accepting and closing connections, client bookkeeping, logging: operating-system I/O. A read delivers bytes, an empty read drops the client.
- `has_order` asked from the I/O thread: its answer is an argument of the dispatch, unconstrained; the engine's own check decides.
- The C++ memory model beyond stale, monotone index reads and a stale, monotone running flag.
- `replenish_iceberg`: its guard is never true, so the heap engine holds an unreachable branch in its place.
- Overflow of 32-bit quantities and totals, and of the 64-bit counters over a run: quantities are unbounded.
- Bytes for side and order type outside their enumerations: the frame is decoded to the raw numbers, and `Gateway` makes commands of proper ones only.
- The engine's order timestamps: the engine passes 0, and nothing reads them.
- The union and placement-new of the pool's storage: a slot is either free with a next index or holds an object.
- Copying events into each client's send buffer (`broadcast`, `send_reject`): a loop over clients.
- Price processes, Hawkes intensities, latency sampling: random draws; a latency is any number that is not negative, a flow any count.
- Agents, metrics, WebSocket bridge and dashboard: decision rules and display. A run with the bridge, which can inject events, is not part of this model.
- The heap inside `heapq`: which of several earliest events comes out first is left open.
- What the caller of a poll that raises gets: the messages decoded before it have reached the callbacks, and that is what the model hands over.
- Floating-point rounding of the simulator's times.
