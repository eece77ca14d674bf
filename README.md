# cpp-playground order books and practice structures, modelled in Dafny

This project models the order-book core of cpp-playground, together with the
practice code around it, and proves what that code promises.

- **The intrusive order book (namespace `orderbook`).**
  - `Order` and `Trade` records (module `Orders`).
  - The price-level helpers (`PriceLevel`).
  - The free-list pool and slab allocators (`Allocators`).
  - The intrusive per-price FIFO storage, with its representation invariant (`Storage`, `Intrusive`).
  - The price-time priority matcher (`Matching`).
  - The `OrderBook` facade with the `MarketDepth` snapshot (`Book`).
  - The two MPSC queues (`Mpsc`).
- **The fixed-point book (namespace `matching_engine`).**
  - The value types and `Result` (`MeTypes`).
  - The map-based order book with its Fill events and depth (`MeBook`).
  - The bounded ring buffer (`RingBuffer`).
  - The synchronous and asynchronous engine front ends (`AsyncEngine`).
- **The Python bindings' string conversions and order builders** (`Bindings`).
- **The practice data structures.**
  - The fixed binary heap (`FixedHeap`).
  - The segment tree (`SegmentTree`).
  - The lazy segment tree (`LazySegmentTree`).
  - The Fenwick tree (`Fenwick`).
- **The practice programs.**
  - The membership state machines (`DesignPattern`, `Singleton`).
  - The caches and the swap of the tips header (`Tips`).
  - The constexpr arithmetic (`Constexpr`).
  - The parameter-pack builders and the `printx` formatter (`Pack`).

How the source's forms carry over:

- Classes whose fields change in place are Dafny classes with `modifies` frames.
- In-place array algorithms keep their arrays: the heap, the trees, the ring buffers, and the price-level cleanup and sort.
- Each state-changing operation is proved against a function on values:
  - `Run` is the matching loop.
  - `Submit` and `Batch` are `add_order` and `add_orders_batch`.
  - `Fold` and `Sum` are the tree queries.
  - The ring buffers' contents are sequences.
- The lemmas beside those functions state what the source promises: conservation of quantity, where matching stops, price-time priority, a book that never stays crossed, FIFO order, counting invariants, round trips.

`Common` holds the shared vocabulary:

- `Option`
- `U64`, with wrap-around `Add64` and `Sub64`
- sums over sequences and maps
- the `Sealed` guard that keeps large invariants folded until a lemma opens them

## Model

| member | source | states |
|---|---|---|
| Orders.NewOrder | src/orderbook/core/order.hpp:50-61 | a new order carries the given id, price, quantity, side, type and clock reading as its timestamp, has nothing filled and status New |
| Orders.Remaining | src/orderbook/core/order.hpp:64-66 | while the fill does not exceed the quantity, remaining plus filled is the quantity |
| Orders.FullyFilledIffNoneRemaining | src/orderbook/core/order.hpp:64-71 | with the fill at most the quantity, `is_fully_filled` holds exactly when nothing remains |
| Orders.OverfilledRemainingWraps | src/orderbook/core/order.hpp:64-71 | an overfilled order counts as fully filled while its unsigned remainder wraps above its quantity |
| Orders.NewOrderRemaining | src/orderbook/core/order.hpp:50-71 | a new order has its whole quantity remaining, and is fully filled only when that quantity is 0 |
| Orders.CanMatchWithMeaning | src/orderbook/core/order.hpp:74-85 | `can_match_with` is symmetric and holds exactly between a buy priced at or above a sell |
| Orders.BeforeIsPriceTime | src/orderbook/core/order.hpp:88-108 | on one side, `<` is better price first, then earlier timestamp; `<=>` says equivalent exactly on equal price and timestamp |
| Orders.BeforeStrictWeak | src/orderbook/core/order.hpp:88-108 | on one side, `<` is irreflexive, asymmetric, transitive, and its incomparability is transitive |
| Orders.CompareMixedSides | src/orderbook/core/order.hpp:88-108 | for a buy and a sell at different prices the answer is judged by the left operand's side only, so `a <=> b` equals `b <=> a` |
| Orders.NewTrade | src/orderbook/core/order.hpp:138-144 | a trade carries the given ids, price and quantity |
| PriceLevel.Kept | src/orderbook/core/price_level.hpp:46-51 | the entries that stay are never more than the level had |
| PriceLevel.KeptAppend | src/orderbook/core/price_level.hpp:46-51 | filtering a concatenation filters each part |
| PriceLevel.KeptMembers | src/orderbook/core/price_level.hpp:46-51 | an entry stays exactly when it was in the level and is non-null and not fully filled |
| PriceLevel.AggregateOfKept | src/orderbook/core/price_level.hpp:19-51 | removing the null and filled entries leaves the level's remaining quantity unchanged |
| PriceLevel.EmptyLevelHasNoQuantity | src/orderbook/core/price_level.hpp:19-66 | a level with no live order has no remaining quantity |
| PriceLevel.AggregateQuantity | src/orderbook/core/price_level.hpp:19-27 | the total is the sum of the remaining quantities of the non-null entries, modulo 2^64 |
| PriceLevel.GetBestOrder | src/orderbook/core/price_level.hpp:30-43 | the answer is the first live entry, or null when there is none |
| PriceLevel.IsEmpty | src/orderbook/core/price_level.hpp:59-66 | true exactly when no entry is live |
| PriceLevel.CountOrders | src/orderbook/core/price_level.hpp:69-73 | the count is the number of live entries |
| PriceLevel.CleanupFilledOrders | src/orderbook/core/price_level.hpp:46-51 | the array's prefix of the new length is exactly the live entries, in their original order |
| PriceLevel.SortByPriority | src/orderbook/core/price_level.hpp:54-56 | afterwards no order is followed by one of strictly higher price-time priority, and the array is a permutation of the old one |
| PriceLevel.InsertLast | src/orderbook/core/price_level.hpp:54-56 | one insertion pass sorts the prefix up to `i`, permutes the array and leaves the rest alone |
| PriceLevel.SwapDown | src/orderbook/core/price_level.hpp:54-56 | the order at `j` and its predecessor exchange places, nothing else changes |
| PriceLevel.SwapStep | src/orderbook/core/price_level.hpp:54-56 | swapping the moving order past a predecessor it beats keeps the insertion state and permutes the sequence |
| PriceLevel.InsertedSorted | src/orderbook/core/price_level.hpp:54-56 | when the moving order no longer beats its predecessor, the prefix is sorted |
| Allocators.FreeChainPop | src/orderbook/allocator/slab_allocator.hpp:74-80 | popping the free list's head leaves the rest of the list linked through the next pointers |
| Allocators.FreeChainPush | src/orderbook/allocator/slab_allocator.hpp:96-102 | pushing a slot that is not on the free list links it in front of the old head |
| Allocators.SlabAllocator.constructor | src/orderbook/allocator/slab_allocator.hpp:33-36 | one slab, nothing carved, free list empty, nothing handed out |
| Allocators.SlabAllocator.TotalCapacity | src/orderbook/allocator/slab_allocator.hpp:126 | the capacity of all slabs is never below the slots carved so far |
| Allocators.SlabAllocator.SlotsAccounted | src/orderbook/allocator/slab_allocator.hpp:72-161 | every carved slot is on the free list or handed out, never both |
| Allocators.SlabAllocator.Allocate | src/orderbook/allocator/slab_allocator.hpp:72-87 | a fresh slot is handed out: the free list's head when there is one, else the next uncarved slot |
| Allocators.SlabAllocator.AllocateFromSlab | src/orderbook/allocator/slab_allocator.hpp:143-155 | the next index is taken and its slab exists afterwards |
| Allocators.SlabAllocator.Deallocate | src/orderbook/allocator/slab_allocator.hpp:91-103 | null changes nothing; otherwise the slot goes to the front of the free list and is no longer handed out |
| Allocators.SlabAllocator.Construct | src/orderbook/allocator/slab_allocator.hpp:107-115 | allocates as `allocate` does and the slot holds the new object |
| Allocators.SlabAllocator.Set | src/orderbook/allocator/slab_allocator.hpp:107-115 | a write through a pointer changes that object only |
| Allocators.SlabAllocator.Destroy | src/orderbook/allocator/slab_allocator.hpp:118-123 | null changes nothing; otherwise the object's slot is deallocated |
| Allocators.FixedPoolAllocator.constructor | src/orderbook/allocator/slab_allocator.hpp:172-179 | every slot is on the free list in address order, nothing handed out |
| Allocators.FixedPoolAllocator.Allocate | src/orderbook/allocator/slab_allocator.hpp:190-201 | null exactly when the pool is exhausted; otherwise the head is popped and the count goes up |
| Allocators.FixedPoolAllocator.Deallocate | src/orderbook/allocator/slab_allocator.hpp:204-217 | null changes nothing; otherwise the slot is pushed and the count goes down |
| Allocators.FixedPoolAllocator.Construct | src/orderbook/allocator/slab_allocator.hpp:221-236 | null exactly when exhausted; otherwise a fresh slot holds the new object |
| Allocators.FixedPoolAllocator.Destroy | src/orderbook/allocator/slab_allocator.hpp:239-244 | null changes nothing; otherwise the slot returns to the pool |
| Allocators.FixedPoolAllocator.AvailableCount | src/orderbook/allocator/slab_allocator.hpp:249-253 | the available count is the free list's length, and it plus the allocated count is the capacity |
| Allocators.FixedPoolAllocator.AllocateSucceedsWhenAvailable | src/orderbook/allocator/slab_allocator.hpp:190-253 | allocation can succeed exactly when the available count is positive |
| Allocators.FixedPoolExhaustion | src/orderbook/allocator/slab_allocator.hpp:190-217 | in a pool of one slot, the second allocation fails and the slot comes back after it is returned |
| Storage.Without | src/orderbook/storage/intrusive_storage.hpp:259-272 | dropping position `k` keeps every other order of the queue in its order, one shorter |
| Storage.Enqueue | src/orderbook/storage/intrusive_storage.hpp:230-248 | an order joins the tail of the queue at its price (a new level when none existed); every other level is unchanged |
| Storage.RemoveAt | src/orderbook/storage/intrusive_storage.hpp:251-280 | removing the last order of a level erases the level; otherwise the level loses exactly that position |
| Storage.UpdateAt | src/orderbook/core/matching_engine.hpp:127-144 | a write through an order pointer keeps the levels and their lengths and puts the new order at that position |
| Storage.LinkedDistinct | src/orderbook/storage/intrusive_storage.hpp:223-227 | the nodes of a well-formed doubly linked level list are pairwise distinct |
| Storage.LinkedApart | src/orderbook/storage/intrusive_storage.hpp:223-227 | two different positions of a linked level list hold different nodes |
| Storage.LevelAppend | src/orderbook/storage/intrusive_storage.hpp:239-247 | linking a fresh node behind the tail gives a valid level with the new tail, count plus one and the order appended |
| Storage.LevelSingleton | src/orderbook/storage/intrusive_storage.hpp:233-238 | the first node at a price is a valid one-order level whose head and tail are that node |
| Storage.LevelUnlink | src/orderbook/storage/intrusive_storage.hpp:259-274 | splicing the neighbours of a node of a level with more than one order leaves a valid level holding the rest in order |
| Storage.LevelUpdate | src/orderbook/storage/intrusive_storage.hpp:223-227 | overwriting the order in a node (same price and side) keeps the level valid with that one order replaced |
| Storage.SpliceUnlinks | src/orderbook/storage/intrusive_storage.hpp:259-272 | the neighbours read from a node exist, and splicing them and freeing the node removes exactly that slot from the arena |
| Storage.Counts | src/orderbook/storage/intrusive_storage.hpp:78-79 | `total_orders_` equals the number of indexed ids, of allocated slots and of queued orders on both sides |
| Storage.IndexIds | src/orderbook/storage/intrusive_storage.hpp:303-304 | an id is in `order_index_` exactly when an order of the book carries it |
| Storage.ViewFormed | src/orderbook/storage/intrusive_storage.hpp:297-301 | no price level is empty and every order rests at its own price on its own side |
| Storage.LocOfId | src/orderbook/storage/intrusive_storage.hpp:111-120 | an indexed id locates an order of the book that carries that id |
| Storage.CountAdd | src/orderbook/storage/intrusive_storage.hpp:78-79 | adding an order to the book adds one to its order count |
| Storage.CountRemove | src/orderbook/storage/intrusive_storage.hpp:102-103 | removing an order from the book takes one off its order count |
| Storage.CountUpdate | src/orderbook/storage/intrusive_storage.hpp:223-227 | overwriting an order leaves the order count as it was |
| Storage.BestPriceRanks | src/orderbook/storage/intrusive_storage.hpp:297-301 | the best price of a side is one of its levels and no level ranks before it (higher bid, lower ask) |
| Storage.BestPriceUnique | src/orderbook/storage/intrusive_storage.hpp:297-301 | a level that no other level ranks before is the best price |
| Storage.TopLevelsShape | src/orderbook/storage/storage_policy.hpp:71-75 | one side of the depth lists min(levels, number of levels) rows, each a level's price, summed quantity and count, strictly best first |
| Storage.TopLevelsNoGap | src/orderbook/storage/storage_policy.hpp:71-75 | the depth skips no level that ranks before one it lists |
| Intrusive.IntrusiveStorage.constructor | src/orderbook/storage/intrusive_storage.hpp:23 | a new storage is empty: no levels, no index entries, no orders |
| Intrusive.IntrusiveStorage.OrderAt | src/orderbook/storage/intrusive_storage.hpp:111-120 | reading through a slot pointer yields the order stored in that slot |
| Intrusive.IntrusiveStorage.AddOrder | src/orderbook/storage/intrusive_storage.hpp:56-82 | refused exactly when the id is already indexed, changing nothing; otherwise the order joins the tail of its level, is indexed and counted |
| Intrusive.IntrusiveStorage.PlaceNode | src/orderbook/storage/intrusive_storage.hpp:64-75 | a fresh slot receives the order and is linked behind the old tail of its level |
| Intrusive.IntrusiveStorage.AddToPriceLevel | src/orderbook/storage/intrusive_storage.hpp:230-248 | the node becomes the level's head and tail when the level is new, otherwise the successor of the old tail; the count grows by one |
| Intrusive.IntrusiveStorage.RemoveOrder | src/orderbook/storage/intrusive_storage.hpp:84-109 | refused exactly when the id is unknown, changing nothing; otherwise the order leaves its level and the index, and the count drops by one |
| Intrusive.IntrusiveStorage.UnlinkNode | src/orderbook/storage/intrusive_storage.hpp:94-106 | the node is spliced out of its level and its slot destroyed |
| Intrusive.IntrusiveStorage.RemoveFromPriceLevel | src/orderbook/storage/intrusive_storage.hpp:251-280 | a missing level changes nothing; otherwise the neighbours are spliced, head or tail move, and a level whose count reaches zero is erased |
| Intrusive.IntrusiveStorage.FindOrder | src/orderbook/storage/intrusive_storage.hpp:111-120 | null exactly when the id is not indexed; otherwise the slot holding the order with that id |
| Intrusive.IntrusiveStorage.GetBestBid | src/orderbook/storage/intrusive_storage.hpp:122-132 | null exactly when there are no bids; otherwise the oldest order at the highest bid price |
| Intrusive.IntrusiveStorage.GetBestAsk | src/orderbook/storage/intrusive_storage.hpp:134-144 | null exactly when there are no asks; otherwise the oldest order at the lowest ask price |
| Intrusive.IntrusiveStorage.GetOrdersAtPrice | src/orderbook/storage/intrusive_storage.hpp:146-166 | the orders of the level in time priority, or none when the price has no level |
| Intrusive.IntrusiveStorage.WalkLevel | src/orderbook/storage/intrusive_storage.hpp:158-163 | following `next` from the head visits exactly the level's orders, in order |
| Intrusive.IntrusiveStorage.CalculateLevelQuantity | src/orderbook/storage/intrusive_storage.hpp:283-293 | the level's remaining quantities summed with `uint64_t` wrap-around |
| Intrusive.IntrusiveStorage.GetDepth | src/orderbook/storage/intrusive_storage.hpp:168-195 | the top `levels` bid rows (highest first) followed by the top `levels` ask rows (lowest first) |
| Intrusive.IntrusiveStorage.SideDepth | src/orderbook/storage/intrusive_storage.hpp:174-182 | walking a side from its best level lists exactly the top `n` rows of that side |
| Intrusive.IntrusiveStorage.BestLevel | src/orderbook/storage/intrusive_storage.hpp:176-181 | the next row is the best remaining level's price, quantity and count |
| Intrusive.IntrusiveStorage.Clear | src/orderbook/storage/intrusive_storage.hpp:197-209 | every order is destroyed and both sides, the index and the count become empty |
| Intrusive.IntrusiveStorage.Size | src/orderbook/storage/intrusive_storage.hpp:211 | the number of resting orders, which is the number of indexed ids |
| Intrusive.IntrusiveStorage.NumPriceLevels | src/orderbook/storage/intrusive_storage.hpp:216-219 | the number of price levels on the buy side plus the sell side |
| Intrusive.IntrusiveStorage.AllocatorCapacity | src/orderbook/storage/intrusive_storage.hpp:214 | the allocator's capacity, never below the number of resting orders |
| Intrusive.IntrusiveStorage.SetOrder | src/orderbook/core/matching_engine.hpp:127-144 | a write through a resting order's pointer replaces that order in place, keeping its level, position, index and count |
| Intrusive.LevelsEmpty | src/orderbook/storage/intrusive_storage.hpp:125-127 | a side has no level headers exactly when it has no orders |
| Intrusive.BestIsUnique | src/orderbook/storage/intrusive_storage.hpp:129-131 | the level the walk stops at is the side's best price |
| Matching.HasTrades | src/orderbook/core/matching_engine.hpp:21 | true exactly when the result holds a trade |
| Matching.NumTrades | src/orderbook/core/matching_engine.hpp:23 | the number of trades, zero exactly when there are none |
| Matching.FillToQuantity | src/orderbook/core/matching_engine.hpp:111-128 | filling an order by its unsigned remainder brings the fill exactly to the quantity |
| Matching.SizeRemoveAt | src/orderbook/core/matching_engine.hpp:139-141 | taking a filled resting order out leaves one order fewer on the side |
| Matching.SizeUpdateAt | src/orderbook/core/matching_engine.hpp:142-144 | a partly filled resting order stays, so the side keeps its number of orders |
| Matching.StepExhausts | src/orderbook/core/matching_engine.hpp:109-145 | each trade either finishes the incoming order or takes the best resting order out of the book, so the matching loop ends |
| Matching.Settle | src/orderbook/core/matching_engine.hpp:46-53 | the incoming order's fill becomes the matched quantity; Filled when nothing remains, PartiallyFilled when some traded, status unchanged otherwise |
| Matching.RunsToRun | src/orderbook/core/matching_engine.hpp:75-106 | the matching loop from any state ends in its run |
| Matching.RunsToSame | src/orderbook/core/matching_engine.hpp:75-106 | the loop's end state is unique |
| Matching.RunsToStep | src/orderbook/core/matching_engine.hpp:75-106 | a loop that goes on ends where the loop from the next state ends |
| Matching.RunsToStop | src/orderbook/core/matching_engine.hpp:79-82 | a loop whose condition fails ends at once |
| Matching.RunStops | src/orderbook/core/matching_engine.hpp:75-106 | the loop ends exactly where no further trade is possible, with the incoming order unchanged |
| Matching.RunExtends | src/orderbook/core/matching_engine.hpp:132 | matching only appends trades to the result, one per step |
| Matching.RunConserves | src/orderbook/core/matching_engine.hpp:127-131 | filled plus remaining stays the incoming quantity, and the fill is the sum of the traded quantities |
| Matching.RunVolume | src/orderbook/core/matching_engine.hpp:136 | the volume counter grows by the traded quantity, modulo 2^64 |
| Matching.RunCounters | src/orderbook/core/matching_engine.hpp:135 | the trade-id and trade counters advance by the number of trades, modulo 2^64 |
| Matching.RunTradeIds | src/orderbook/core/matching_engine.hpp:147-149 | trade ids run on from the id counter, one per trade, wrapping at 2^64 |
| Matching.RunParties | src/orderbook/core/matching_engine.hpp:120-124 | the incoming order is the buyer of every trade when it buys and the seller when it sells |
| Matching.RunLimitPrices | src/orderbook/core/matching_engine.hpp:99-103 | a Limit buy never trades above its price, a Limit sell never below |
| Matching.RunLevels | src/orderbook/core/matching_engine.hpp:138-144 | the book only shrinks, by at most one order per trade |
| Matching.StepFormed | src/orderbook/core/matching_engine.hpp:111-114 | a step keeps the resting side well formed, opens no level and trades at the side's best price |
| Matching.RunPricesIn | src/orderbook/core/matching_engine.hpp:114 | every trade is at the price of a level of the resting side |
| Matching.RunFormed | src/orderbook/core/matching_engine.hpp:73-107 | a run keeps the resting side well formed and opens no price level |
| Matching.NoBetterLater | src/orderbook/core/matching_engine.hpp:76-77 | after a step no later trade is at a better price than that step's |
| Matching.RunPriceOrder | src/orderbook/core/matching_engine.hpp:73-107 | price priority: each trade is at a price no better than the one before it |
| Matching.MatchOutcome | src/orderbook/core/matching_engine.hpp:35-56 | fill plus remainder is the quantity, the fill is the sum of the trades, a remainder is left only when the opposite side is empty or (Limit) no longer crosses, and the status settles accordingly |
| Matching.RemoveAfterUpdate | src/orderbook/core/matching_engine.hpp:139-141 | recording the fill on a resting order and then removing it leaves the same book as removing it |
| Matching.MatchingEngine.constructor | src/orderbook/core/matching_engine.hpp:151-153 | trade ids start at 1, the statistics at 0 |
| Matching.MatchingEngine.TotalTrades | src/orderbook/core/matching_engine.hpp:59-61 | the trade counter |
| Matching.MatchingEngine.TotalVolume | src/orderbook/core/matching_engine.hpp:63-65 | the volume counter |
| Matching.MatchingEngine.ResetStatistics | src/orderbook/core/matching_engine.hpp:67-70 | both statistics become zero; the trade id keeps running |
| Matching.MatchingEngine.GenerateTradeId | src/orderbook/core/matching_engine.hpp:147-149 | hands out the counter and advances it by one, wrapping at 2^64; the statistics are untouched |
| Matching.MatchingEngine.MatchOrder | src/orderbook/core/matching_engine.hpp:35-56 | the storage's opposite side and the counters end as the matching run says, the result and the settled order follow it, and the incoming side is untouched |
| Matching.MatchingEngine.MatchMarketOrder | src/orderbook/core/matching_engine.hpp:73-86 | the in-place loop over the storage ends in the state of the matching run of a Market order |
| Matching.MatchingEngine.MatchLimitOrder | src/orderbook/core/matching_engine.hpp:88-107 | the in-place loop over the storage ends in the state of the matching run of a Limit order |
| Matching.MatchingEngine.BestOpposite | src/orderbook/core/matching_engine.hpp:76-77 | the head of the best ask for a buyer, of the best bid for a seller, or null when that side is empty |
| Matching.MatchingEngine.ExecuteTrade | src/orderbook/core/matching_engine.hpp:109-145 | one trade performed on the storage is exactly one step of the matching run |
| Book.BestPricesMeaning | src/orderbook/orderbook.hpp:98-130 | the best bid is the highest bid level and the best ask the lowest ask level; spread and mid exist exactly when both sides have orders; on an uncrossed book the spread is positive and the mid lies strictly between |
| Book.SplitBids | src/orderbook/orderbook.hpp:141-153 | rows that fit within `levels` and lie below the best ask all become bids |
| Book.SplitAsks | src/orderbook/orderbook.hpp:155-157 | after the bids, rows that find the bids full or are not below the best ask all become asks |
| Book.SplitUncrossed | src/orderbook/orderbook.hpp:133-160 | on an uncrossed book the split as written gives exactly the top bid levels as bids and the top ask levels as asks |
| Book.PassiveReachesCrossed | src/orderbook/orderbook.hpp:49-54 | two passive orders (a sell at 100, then a buy at 105) take an empty book to a crossed one |
| Book.OneLevel | src/orderbook/storage/intrusive_storage.hpp:168-195 | a side with one level has that level as its whole depth |
| Book.CrossedDepthMisfiled | src/orderbook/orderbook.hpp:143-157 | on the crossed book the split as written reports no bids and files the bid level at 105 among the asks, where the intended snapshot keeps it a bid |
| Book.CrossedBidsDepth | src/orderbook/storage/intrusive_storage.hpp:174-182 | the crossed book's bid depth is its one level at 105 |
| Book.CrossedAsksDepth | src/orderbook/storage/intrusive_storage.hpp:184-192 | the crossed book's ask depth is its one level at 100, which is also the best ask |
| Book.CrossedRowsSplit | src/orderbook/orderbook.hpp:143-157 | with the best ask at 100, the rows at 105 and at 100 both go to the asks |
| Book.CorrectDepthSides | src/orderbook/storage/storage_policy.hpp:99-139 | the intended snapshot lists only bid levels as bids and ask levels as asks, up to `levels` of each, and its best prices, spread and mid are the book's |
| Book.RestingBeyond | src/orderbook/orderbook.hpp:41-44 | a Limit remainder that stopped matching lies strictly beyond every level left on the other side |
| Book.EnqueueFormed | src/orderbook/orderbook.hpp:41-44 | resting an order at its own price and side keeps that side well formed |
| Book.SubmitBalance | src/orderbook/orderbook.hpp:32-47 | fill plus remainder is the order's quantity, the fill is the traded quantity, and `fully_filled` holds exactly when nothing remains |
| Book.SubmitRemainder | src/orderbook/orderbook.hpp:38-44 | a Market remainder means the other side is empty and a Market order never rests; a Limit remainder lies beyond every level left on the other side |
| Book.SubmitCount | src/orderbook/orderbook.hpp:38-44 | one `add_order` rests at most one order and removes at most one per trade |
| Book.SubmitKeepsUncrossed | src/orderbook/orderbook.hpp:32-47 | `add_order` keeps a well-formed, uncrossed book well formed and uncrossed |
| Book.Batch | src/orderbook/orderbook.hpp:163-172 | the batch yields one result per order |
| Book.BatchConcat | src/orderbook/orderbook.hpp:163-172 | a batch of `xs` then `ys` is the batch of `xs` followed by the batch of `ys` from the book it left |
| Book.BatchKeepsUncrossed | src/orderbook/orderbook.hpp:163-172 | a batch keeps a well-formed, uncrossed book so |
| Book.CountZero | src/orderbook/orderbook.hpp:181 | a well-formed book holds no order exactly when it has no level |
| Book.OrderBook.constructor | src/orderbook/orderbook.hpp:20 | an empty book whose order ids start at 1, trade ids at 1 and statistics at 0 |
| Book.OrderBook.GenerateOrderId | src/orderbook/orderbook.hpp:196-198 | hands out the counter and advances it by one, wrapping at 2^64 |
| Book.OrderBook.AddOrder | src/orderbook/orderbook.hpp:32-47 | the book, the id counter, the statistics and the result move exactly as one submission says |
| Book.OrderBook.AddOrderAt | src/orderbook/orderbook.hpp:23-28 | a new order with the next generated id, then `add_order` |
| Book.OrderBook.AddPassiveOrder | src/orderbook/orderbook.hpp:50-54 | the id counter advances; refused exactly when the generated id already rests, otherwise the Limit order joins its level unmatched and the count grows by one |
| Book.OrderBook.CancelOrder | src/orderbook/orderbook.hpp:57-65 | true exactly when an order with the id rests; that order leaves the book, the count drops by one; otherwise the book is unchanged |
| Book.OrderBook.ModifyOrder | src/orderbook/orderbook.hpp:68-87 | true exactly when the id rests; the order is replaced by a fresh one with the same id, price, side and type and the new quantity, at the back of its level |
| Book.OrderBook.FindOrder | src/orderbook/orderbook.hpp:90 | some order exactly when one with the id rests, and then that order |
| Book.OrderBook.GetBestBid | src/orderbook/orderbook.hpp:93 | none exactly when there are no bids; otherwise the oldest buy order at the highest bid price |
| Book.OrderBook.GetBestAsk | src/orderbook/orderbook.hpp:96 | none exactly when there are no asks; otherwise the oldest sell order at the lowest ask price |
| Book.OrderBook.GetBestBidPrice | src/orderbook/orderbook.hpp:99-104 | the highest bid level, or none |
| Book.OrderBook.GetBestAskPrice | src/orderbook/orderbook.hpp:107-112 | the lowest ask level, or none |
| Book.OrderBook.GetSpread | src/orderbook/orderbook.hpp:115-121 | best ask minus best bid, or none when a side is empty |
| Book.OrderBook.GetMidPrice | src/orderbook/orderbook.hpp:124-130 | the average of best bid and best ask, or none when a side is empty |
| Book.OrderBook.GetMarketDepthAsWritten | src/orderbook/orderbook.hpp:133-160 | the storage's depth rows split by comparing each price with the best ask, as the code does |
| Book.OrderBook.GetMarketDepth | src/orderbook/orderbook.hpp:133-160 | the intended snapshot: the top bid levels as bids and the top ask levels as asks |
| Book.OrderBook.AddOrdersBatch | src/orderbook/orderbook.hpp:163-172 | the book and the results move exactly as the batch of submissions says |
| Book.OrderBook.Clear | src/orderbook/orderbook.hpp:175 | no order rests afterwards |
| Book.OrderBook.Size | src/orderbook/orderbook.hpp:178 | the number of resting orders |
| Book.OrderBook.Empty | src/orderbook/orderbook.hpp:181 | true exactly when the book has no level on either side |
| Book.OrderBook.TotalTrades | src/orderbook/orderbook.hpp:184 | the engine's trade counter |
| Book.OrderBook.TotalVolume | src/orderbook/orderbook.hpp:186 | the engine's volume counter |
| Book.OrderBook.ResetStatistics | src/orderbook/orderbook.hpp:188 | only the statistics change, to zero; trade ids keep running |
| Mpsc.Node.Dummy | src/orderbook/concurrent/mpsc_queue.hpp:26 | a dummy node links to nothing |
| Mpsc.Node.constructor | src/orderbook/concurrent/mpsc_queue.hpp:28-31 | a data node carries the value and links to nothing |
| Mpsc.MPSCQueue.constructor | src/orderbook/concurrent/mpsc_queue.hpp:35-41 | a new queue is its dummy node alone and holds no items |
| Mpsc.MPSCQueue.Enqueue | src/orderbook/concurrent/mpsc_queue.hpp:82-90 | the item is appended at the back of the pending items |
| Mpsc.MPSCQueue.TryDequeue | src/orderbook/concurrent/mpsc_queue.hpp:94-114 | nothing exactly when no item is pending; otherwise the oldest item, which leaves the queue |
| Mpsc.MPSCQueue.DequeueSpin | src/orderbook/concurrent/mpsc_queue.hpp:118-131 | with an item pending, returns the oldest item and removes it |
| Mpsc.MPSCQueue.Empty | src/orderbook/concurrent/mpsc_queue.hpp:134-138 | true exactly when no item is pending |
| Mpsc.MPSCQueue.ApproxSize | src/orderbook/concurrent/mpsc_queue.hpp:141-151 | walking the chain after `tail` counts exactly the pending items |
| Mpsc.Items | src/orderbook/concurrent/mpsc_queue.hpp:250-254 | the pending items number the enqueue position minus the dequeue position |
| Mpsc.InitRing | src/orderbook/concurrent/mpsc_queue.hpp:180-187 | the constructor's ring has `Capacity` slots |
| Mpsc.InitRingInv | src/orderbook/concurrent/mpsc_queue.hpp:180-187 | a ring of at least two power-of-two slots, slot `i` waiting for position `i`, is a working queue with nothing pending |
| Mpsc.EnqSlot | src/orderbook/concurrent/mpsc_queue.hpp:202-217 | on a working ring the slot at the enqueue position is never ahead of it, and waits for it exactly when the ring is not full |
| Mpsc.EnqAppends | src/orderbook/concurrent/mpsc_queue.hpp:206-213 | a claimed slot takes the item and the ring stays working with the item appended |
| Mpsc.TryEnqFifo | src/orderbook/concurrent/mpsc_queue.hpp:198-223 | `try_enqueue` succeeds exactly when fewer than `Capacity` items are pending, then appends the item; a refusal changes nothing |
| Mpsc.DeqRemoves | src/orderbook/concurrent/mpsc_queue.hpp:237-242 | taking a filled slot keeps the ring working and removes the oldest item |
| Mpsc.TryDeqFifo | src/orderbook/concurrent/mpsc_queue.hpp:231-247 | `try_dequeue` yields nothing exactly when nothing is pending, changing nothing; otherwise the oldest item, which leaves the queue |
| Mpsc.CapacityOneOverwrites | src/orderbook/concurrent/mpsc_queue.hpp:177 | with `Capacity` 1, which the `static_assert` admits, the second enqueue overwrites the first item and a later dequeue finds nothing |
| Mpsc.BoundedMPSCQueue.constructor | src/orderbook/concurrent/mpsc_queue.hpp:180-187 | a new ring of at least two power-of-two slots holds nothing |
| Mpsc.BoundedMPSCQueue.TryEnqueue | src/orderbook/concurrent/mpsc_queue.hpp:198-228 | succeeds exactly when fewer than `capacity` items are pending, appending the item; otherwise nothing changes |
| Mpsc.BoundedMPSCQueue.TryDequeue | src/orderbook/concurrent/mpsc_queue.hpp:231-247 | nothing exactly when nothing is pending; otherwise the oldest item, which leaves the queue |
| Mpsc.BoundedMPSCQueue.ApproxSize | src/orderbook/concurrent/mpsc_queue.hpp:250-254 | the number of pending items, never above the capacity |
| MeTypes.Compare | src/matching_engine/core/types.hpp:14 | the sign of a defaulted three-way comparison: negative, zero or positive exactly when less, equal or greater |
| MeTypes.ComparePrice | src/matching_engine/core/types.hpp:36 | prices order by ticks and compare equal exactly when they are equal |
| MeTypes.CompareQuantity | src/matching_engine/core/types.hpp:42 | quantities order by value and compare equal exactly when they are equal |
| MeTypes.CompareOrderId | src/matching_engine/core/types.hpp:14 | ids order by value and compare equal exactly when they are equal |
| MeTypes.CompareTimestamp | src/matching_engine/core/types.hpp:22 | timestamps order by nanoseconds and compare equal exactly when they are equal |
| MeTypes.PlusMinus | src/matching_engine/core/types.hpp:44-56 | `+` and `-` on `Quantity` wrap modulo 2^64 and undo each other; without overflow or underflow they are the exact sum and difference |
| MeTypes.DefaultFillInfo | src/matching_engine/core/types.hpp:74-79 | every field of a default `FillInfo` is zero |
| MeTypes.IsErr | src/matching_engine/core/types.hpp:108 | `is_err` is the negation of `is_ok` |
| MeTypes.Ok | src/matching_engine/core/types.hpp:113 | `Ok(v)` succeeds and carries `v` |
| MeTypes.Err | src/matching_engine/core/types.hpp:115 | `Err()` fails and carries the default value |
| MeTypes.VoidIsErr | src/matching_engine/core/types.hpp:126 | `is_err` is the negation of `is_ok` |
| MeTypes.VoidOk | src/matching_engine/core/types.hpp:128 | `Ok()` succeeds |
| MeTypes.VoidErr | src/matching_engine/core/types.hpp:130 | `Err()` fails |
| MeBook.BestOn | src/matching_engine/matching/orderbook.hpp:71-72 | the best price is a level of the side: no bid level above it, no ask level below it |
| MeBook.BestIsBest | src/matching_engine/matching/orderbook.hpp:71-72 | the best price is the one level no other level ranks before, and it is unique |
| MeBook.Append | src/matching_engine/matching/orderbook.hpp:107-114 | `side[price].push_back(order)` appends at the tail of the level, creating it if needed, and leaves every other level alone |
| MeBook.StepShrinks | src/matching_engine/matching/orderbook.hpp:177-226 | each pass keeps the levels open, opens no level, never fills past the quantity, and shortens the order's remainder or the side, so the loop ends |
| MeBook.RunStep | src/matching_engine/matching/orderbook.hpp:177-226 | one pass of the loop leaves the loop's outcome unchanged |
| MeBook.RunStops | src/matching_engine/matching/orderbook.hpp:177-226 | the loop ends where its condition fails, only raising the incoming fill (never past the quantity) and only shrinking the other side |
| MeBook.StepSize | src/matching_engine/matching/orderbook.hpp:215-222 | one pass never lengthens the other side |
| MeBook.RunFills | src/matching_engine/matching/orderbook.hpp:193-213 | the Fill events of the loop add up to the raise of the order's fill, which the New event's total tracks along with the last fill price |
| MeBook.StepFill | src/matching_engine/matching/orderbook.hpp:197-211 | a pass that trades appends one Fill event for the incoming order |
| MeBook.RunFillEvents | src/matching_engine/matching/orderbook.hpp:197-211 | every Fill event is for the incoming order, of positive quantity, at a price it crosses, stamped with the clock |
| MeBook.StepResting | src/matching_engine/matching/orderbook.hpp:215-222 | a pass keeps the other side's orders open, at their own price and side |
| MeBook.RunResting | src/matching_engine/matching/orderbook.hpp:177-226 | the loop keeps the other side's orders open, at their own price and side |
| MeBook.NewEvent | src/matching_engine/matching/orderbook.hpp:91-97 | the New event carries the order's own fields and a default `FillInfo` |
| MeBook.MatchFacts | src/matching_engine/matching/orderbook.hpp:99-104 | the match starts from the fresh order and its New event and ends with the loop's facts |
| MeBook.MatchKeepsOrder | src/matching_engine/matching/orderbook.hpp:99-104 | the matched order is the submitted one with only its fill changed |
| MeBook.AddOrderEvent | src/matching_engine/matching/orderbook.hpp:81-117 | `add_order` always returns Ok with the New event (next id, given fields, clock), fill plus remainder is the quantity, the fill is the sum of the new Fill events, a Limit order never trades beyond its limit, and the id counter moves on by one |
| MeBook.AddOrderRests | src/matching_engine/matching/orderbook.hpp:106-114 | a Limit remainder joins the tail of its level exactly when something is left, and then the other side is empty or does not cross; otherwise the own side is unchanged |
| MeBook.AppendResting | src/matching_engine/matching/orderbook.hpp:107-113 | appending an open order under its own price keeps the side resting and adds one order |
| MeBook.AddOrderKeeps | src/matching_engine/matching/orderbook.hpp:106-114 | `order_count_` stays the number of resting orders |
| MeBook.AddOrderUncrossed | src/matching_engine/matching/orderbook.hpp:81-117 | `add_order` never leaves the book crossed |
| MeBook.PopBest | src/matching_engine/matching/orderbook.hpp:135 | the best level ranks before every other level of the side |
| MeBook.SideDepthRows | src/matching_engine/matching/orderbook.hpp:131-148 | a side's depth has at most `n` rows, each a level with its positive total, strictly best first |
| MeBook.SideDepthComplete | src/matching_engine/matching/orderbook.hpp:131-148 | a level with a positive total left out of the depth lies behind `n` listed better rows |
| MeBook.HalfTowardZero | src/matching_engine/matching/orderbook.hpp:63 | C++ `/ 2`: the half rounded toward zero |
| MeBook.DepthQuotes | src/matching_engine/matching/orderbook.hpp:54-64 | on an uncrossed book the snapshot's spread is positive and its mid lies between the best bid and ask; both are absent when a side has no row |
| MeBook.MidTruncates | src/matching_engine/matching/orderbook.hpp:63 | the mid of a negative odd sum rounds toward zero, not down |
| MeBook.MarketDepth.constructor | src/matching_engine/matching/orderbook.hpp:30-32 | a new snapshot has no rows |
| MeBook.MarketDepth.AddBid | src/matching_engine/matching/orderbook.hpp:35 | appends one bid row and leaves the asks |
| MeBook.MarketDepth.AddAsk | src/matching_engine/matching/orderbook.hpp:37 | appends one ask row and leaves the bids |
| MeBook.MarketDepth.Bid | src/matching_engine/matching/orderbook.hpp:42-46 | nothing exactly past the last row, otherwise that row |
| MeBook.MarketDepth.Ask | src/matching_engine/matching/orderbook.hpp:48-52 | nothing exactly past the last row, otherwise that row |
| MeBook.MarketDepth.Spread | src/matching_engine/matching/orderbook.hpp:54-58 | absent exactly when a side has no row; otherwise ask 0 minus bid 0 |
| MeBook.MarketDepth.MidPrice | src/matching_engine/matching/orderbook.hpp:60-64 | absent exactly when a side has no row; otherwise half of bid 0 plus ask 0, truncated toward zero |
| MeBook.SumLevel | src/matching_engine/matching/orderbook.hpp:139-142 | the level's remainders summed in a `uint64_t` |
| MeBook.SideDepthUnfold | src/matching_engine/matching/orderbook.hpp:135-148 | a side's depth starts with the best level when its total is positive |
| MeBook.DepthStart | src/matching_engine/matching/orderbook.hpp:134 | nothing listed yet: the depth loop's invariant holds |
| MeBook.DepthDone | src/matching_engine/matching/orderbook.hpp:136-137 | when the loop exits the rows are the side's depth |
| MeBook.DepthStep | src/matching_engine/matching/orderbook.hpp:139-147 | a pass lists the best remaining level when its total is positive |
| MeBook.AddBids | src/matching_engine/matching/orderbook.hpp:134-148 | the bid loop appends exactly the bid side's depth |
| MeBook.AddAsks | src/matching_engine/matching/orderbook.hpp:150-164 | the ask loop appends exactly the ask side's depth |
| MeBook.TradeHead | src/matching_engine/matching/orderbook.hpp:187-222 | one trade against the head of the best level is one pass of the loop; a filled head leaves the level |
| MeBook.MatchSide | src/matching_engine/matching/orderbook.hpp:177-229 | the in-place loop ends where the run ends and keeps the other side resting |
| MeBook.OrderBook.constructor | src/matching_engine/matching/orderbook.hpp:71-77 | an empty book with no pending events whose first order gets id 1 |
| MeBook.OrderBook.AddOrder | src/matching_engine/matching/orderbook.hpp:81-117 | the book and the result move exactly as one submission says |
| MeBook.OrderBook.Match | src/matching_engine/matching/orderbook.hpp:176-229 | the other side ends as the run says, the own side is untouched, the Fill events are appended and the New event gets the remainder |
| MeBook.OrderBook.GetBestBid | src/matching_engine/matching/orderbook.hpp:119-123 | nothing exactly when there are no bids; otherwise the highest bid level |
| MeBook.OrderBook.GetBestAsk | src/matching_engine/matching/orderbook.hpp:125-129 | nothing exactly when there are no asks; otherwise the lowest ask level |
| MeBook.OrderBook.GetMarketDepth | src/matching_engine/matching/orderbook.hpp:131-167 | a fresh snapshot holding each side's depth of at most `max_levels` rows |
| MeBook.OrderBook.OrderCount | src/matching_engine/matching/orderbook.hpp:169 | the number of resting orders on both sides |
| MeBook.OrderBook.TakeEvents | src/matching_engine/matching/orderbook.hpp:173 | hands over the pending events and leaves none; the book is unchanged |
| RingBuffer.OfferKeepsPrefix | src/matching_engine/memory/async_ring_buffer.hpp:41-65 | pushing a run of values keeps, in order, the longest prefix the free slots hold and drops the rest |
| RingBuffer.AsyncRingBuffer.constructor | src/matching_engine/memory/async_ring_buffer.hpp:14-24 | a buffer whose capacity passes the mask check starts empty with both positions 0 |
| RingBuffer.AsyncRingBuffer.Size | src/matching_engine/memory/async_ring_buffer.hpp:30-34 | written minus read is the number of unread items, never above the capacity |
| RingBuffer.AsyncRingBuffer.Empty | src/matching_engine/memory/async_ring_buffer.hpp:36 | true exactly when nothing is unread |
| RingBuffer.AsyncRingBuffer.Full | src/matching_engine/memory/async_ring_buffer.hpp:38 | true exactly when the unread items fill the capacity |
| RingBuffer.AsyncRingBuffer.Push | src/matching_engine/memory/async_ring_buffer.hpp:41-65 | succeeds exactly when the buffer is not full, appending the value; a refusal changes nothing |
| RingBuffer.AsyncRingBuffer.Pop | src/matching_engine/memory/async_ring_buffer.hpp:68-79 | nothing exactly when the buffer is empty, changing nothing; otherwise the oldest item, which leaves the buffer |
| RingBuffer.AsyncRingBuffer.PushAsync | src/matching_engine/memory/async_ring_buffer.hpp:82-104 | the push and its retry: succeeds exactly when the buffer was not full, appending the value |
| RingBuffer.AsyncRingBuffer.PopAsync | src/matching_engine/memory/async_ring_buffer.hpp:107-128 | the pop and its retry: nothing exactly when the buffer was empty, otherwise the oldest item |
| AsyncEngine.SyncMatchingEngine.constructor | src/matching_engine/matching/async_engine.hpp:18 | a new engine wraps an empty book |
| AsyncEngine.SyncMatchingEngine.AddOrder | src/matching_engine/matching/async_engine.hpp:20-23 | the book moves exactly as its `add_order` says |
| AsyncEngine.SyncMatchingEngine.GetBestBid | src/matching_engine/matching/async_engine.hpp:25 | the book's highest bid level, or nothing when there are no bids |
| AsyncEngine.SyncMatchingEngine.GetBestAsk | src/matching_engine/matching/async_engine.hpp:27 | the book's lowest ask level, or nothing when there are no asks |
| AsyncEngine.SyncMatchingEngine.GetMarketDepth | src/matching_engine/matching/async_engine.hpp:29-31 | the book's depth snapshot |
| AsyncEngine.SyncMatchingEngine.TakeEvents | src/matching_engine/matching/async_engine.hpp:36 | the book's pending events, which it then forgets |
| AsyncEngine.SubmitStep | src/matching_engine/matching/async_engine.hpp:55-69 | one submission keeps the book well formed |
| AsyncEngine.Batch | src/matching_engine/matching/async_engine.hpp:131-147 | a batch keeps the book well formed |
| AsyncEngine.SubmitStepOk | src/matching_engine/matching/async_engine.hpp:55-69 | a submission always succeeds, the book's events are handed over, and the queue gains the ones that fit, in order |
| AsyncEngine.BatchCountsAll | src/matching_engine/matching/async_engine.hpp:131-149 | `processed` counts every order of the batch, since `add_order` never fails |
| AsyncEngine.AsyncMatchingEngine.constructor | src/matching_engine/matching/async_engine.hpp:40-47 | an empty book and an empty event queue of `EventQueueSize` slots |
| AsyncEngine.AsyncMatchingEngine.Publish | src/matching_engine/matching/async_engine.hpp:62-65 | each event is pushed in turn, a push refused when the queue is full |
| AsyncEngine.AsyncMatchingEngine.SubmitOrder | src/matching_engine/matching/async_engine.hpp:50-78 | the book and the event queue move exactly as one submission says, and the result is `add_order`'s |
| AsyncEngine.AsyncMatchingEngine.GetBestBid | src/matching_engine/matching/async_engine.hpp:81-97 | the book's highest bid level, or nothing |
| AsyncEngine.AsyncMatchingEngine.GetBestAsk | src/matching_engine/matching/async_engine.hpp:100-116 | the book's lowest ask level, or nothing |
| AsyncEngine.AsyncMatchingEngine.GetEvent | src/matching_engine/matching/async_engine.hpp:119-121 | nothing exactly when the queue is empty; otherwise the oldest queued event, which leaves the queue |
| AsyncEngine.AsyncMatchingEngine.ProcessBatch | src/matching_engine/matching/async_engine.hpp:124-154 | the book, the event queue and the count move exactly as the batch says |
| AsyncEngine.AsyncMatchingEngine.GetMarketDepth | src/matching_engine/matching/async_engine.hpp:157-174 | the book's depth snapshot |
| Bindings.SideToString | src/orderbook_py/bindings.cpp:12-14 | Buy prints as "buy" and Sell as "sell" |
| Bindings.StringToSide | src/orderbook_py/bindings.cpp:16-23 | "buy", "BUY" and "Buy" give Buy, "sell", "SELL" and "Sell" give Sell, exactly; any other name raises `invalid_argument` with the message naming it |
| Bindings.SideRoundTrip | src/orderbook_py/bindings.cpp:12-23 | parsing a printed side gives the side back |
| Bindings.UpperCaseNames | src/orderbook_py/bindings.cpp:17-19 | "SELL" is a side name, but "MARKET" is not a Market order type |
| Bindings.TypeOf | src/orderbook_py/bindings.cpp:204-210 | Market exactly for "market" or "Market"; any other string, or no key, gives Limit |
| Bindings.CreateOrder | src/orderbook_py/bindings.cpp:193-214 | builds an order exactly when `price`, `qty` and `side` are present and of castable kinds, the side name is known, and any `order_id` and `type` present cast; otherwise raises the first failure in source order: `KeyError` for a missing key, `cast_error` for a mistyped value (a negative `qty` included), `invalid_argument` for an unknown side; a built order is New, unfilled, stamped `now`, with the dictionary's price, quantity, side, type and `order_id` (0 when missing) |
| Bindings.CastErrors | src/orderbook_py/bindings.cpp:196-198 | a negative `qty` and a string `price` raise `cast_error`; a missing `qty` raises `KeyError` |
| Bindings.BatchOrders | src/orderbook_py/bindings.cpp:147-168 | builds one id-0 order per dictionary exactly when every dictionary builds; otherwise raises the exception (`KeyError`, `cast_error` or `invalid_argument`) of the first dictionary that fails |
| Bindings.BatchIgnoresOrderId | src/orderbook_py/bindings.cpp:150-166 | the batch loop never reads `order_id`: a mistyped one raises nothing and every order gets id 0 |
| FixedHeap.RootBelowAll | src/language_practice/some_ds.hpp:95-108 | in a heap no node's key is `comp`-less than the root's, so `pop` and `top` give a least-key node |
| FixedHeap.BestChild | src/language_practice/some_ds.hpp:66-71 | `sift_down` compares with a child of `idx` that lies inside the heap |
| FixedHeap.BestIsLeast | src/language_practice/some_ds.hpp:69-72 | the other child, when present, is not less than the chosen one |
| FixedHeap.FixedBinaryHeap.constructor | src/language_practice/some_ds.hpp:39-52 | an empty heap of the given capacity and comparator |
| FixedHeap.FixedBinaryHeap.Empty | src/language_practice/some_ds.hpp:81 | true exactly when the heap holds no node |
| FixedHeap.FixedBinaryHeap.Size | src/language_practice/some_ds.hpp:82 | the number of nodes held |
| FixedHeap.FixedBinaryHeap.Top | src/language_practice/some_ds.hpp:104-108 | the value of a held node whose key no held key is less than |
| FixedHeap.FixedBinaryHeap.SiftUp | src/language_practice/some_ds.hpp:55-62 | a node written past a heap climbs until the slots form a heap again, with the same nodes |
| FixedHeap.FixedBinaryHeap.SiftDown | src/language_practice/some_ds.hpp:64-76 | a node at the root sinks until the slots form a heap again, with the same nodes |
| FixedHeap.FixedBinaryHeap.Push | src/language_practice/some_ds.hpp:84-93 | succeeds exactly when below capacity, then adds the node to the heap's nodes; on overflow nothing changes |
| FixedHeap.FixedBinaryHeap.Pop | src/language_practice/some_ds.hpp:95-102 | none exactly on an empty heap; otherwise the root's value, whose key no node's key is less than, and the heap keeps every other node |
| FixedHeap.GreaterIsStrictWeakOrder | src/bin/lp.cpp:74 | the greater-than comparator is a strict weak order, as the heap demands |
| FixedHeap.GreaterHeapExample | src/bin/lp.cpp:73-82 | after pushing (1, 10) and (2, 20) into a greater-than heap of 200, the size is 2 and the top is 20 |
| SegmentTree.FoldConcat | src/language_practice/some_ds.hpp:160-161 | with an associative `Op` whose unit is `Identity`, folding a concatenation is `Op` of the two folds |
| SegmentTree.FoldOne | src/language_practice/some_ds.hpp:160-161 | folding a single element gives that element |
| SegmentTree.FoldPairs | src/language_practice/some_ds.hpp:190-195 | an even-aligned run of slots whose parents each hold `Op` of their children folds to the same value as the run of those parents |
| SegmentTree.ClimbLevel | src/language_practice/some_ds.hpp:193-194 | halving both ends of an even-aligned run keeps the query's total |
| SegmentTree.Pass | src/language_practice/some_ds.hpp:190-195 | one pass of the query loop keeps the total and shortens the run |
| SegmentTree.PeelLeft | src/language_practice/some_ds.hpp:191 | taking an odd left slot into the left result keeps the total |
| SegmentTree.PeelRight | src/language_practice/some_ds.hpp:192 | taking an even right slot into the right result keeps the total |
| SegmentTree.QueryDone | src/language_practice/some_ds.hpp:196 | when the run is empty, `Op` of the two results is the total |
| SegmentTree.SetStep | src/language_practice/some_ds.hpp:179-180 | recomputing a slot from its children mends it, leaving at most its parent's path broken |
| SegmentTree.SetDone | src/language_practice/some_ds.hpp:179 | once the loop passes the root, every inner slot holds `Op` of its children |
| SegmentTree.FixedSegmentTree.constructor | src/language_practice/some_ds.hpp:163-172 | for a power-of-two `N`, every element is `Identity` and every inner slot is consistent |
| SegmentTree.FixedSegmentTree.Set | src/language_practice/some_ds.hpp:174-181 | the element at `idx` becomes `v`, every other element is unchanged, and every inner slot is consistent again |
| SegmentTree.FixedSegmentTree.Query | src/language_practice/some_ds.hpp:183-197 | the result is `Op` folded, in order, over the elements `l..r` |
| LazySegmentTree.ShapeRoot | src/language_practice/some_ds.hpp:260-263 | for a power-of-two `N`, node 1 covers every element `[0, N - 1]` |
| LazySegmentTree.ShapeChildren | src/language_practice/some_ds.hpp:235-237 | an inner node's children split its range at `mid = (l + r) / 2` into halves of equal width, both inside the arrays |
| LazySegmentTree.EvalSum | src/language_practice/some_ds.hpp:208-210 | under the invariant a node's stored sum is the sum of its elements, less what its ancestors still owe them |
| LazySegmentTree.EvalApply | src/language_practice/some_ds.hpp:213-216 | `apply(node, len, add)` raises every element under the node by `add` |
| LazySegmentTree.OkApply | src/language_practice/some_ds.hpp:213-216 | `apply` keeps a node's sum invariant exactly when it held before |
| LazySegmentTree.PushKeepsOk | src/language_practice/some_ds.hpp:218-225 | `push` keeps the node's sum invariant |
| LazySegmentTree.PushKeepsEval | src/language_practice/some_ds.hpp:218-225 | `push` keeps the node's elements and touches nothing outside its subtree |
| LazySegmentTree.CoveredPass | src/language_practice/some_ds.hpp:230-233 | a node inside `[ql, qr]` takes the whole add with `apply`: its elements in range gain `val`, its invariant holds, nothing outside changes |
| LazySegmentTree.QueryCovered | src/language_practice/some_ds.hpp:244 | a node inside `[ql, qr]` answers with its stored sum, the sum of its elements in range |
| LazySegmentTree.ZeroTree | src/language_practice/some_ds.hpp:254-257 | zero-filled arrays satisfy every invariant and stand for all-zero elements |
| LazySegmentTree.FixedLazySegmentTree.constructor | src/language_practice/some_ds.hpp:254-257 | for a power-of-two `N`, a valid tree whose `N` elements are all zero |
| LazySegmentTree.FixedLazySegmentTree.Apply | src/language_practice/some_ds.hpp:213-216 | the node's sum gains `add * len` and its pending add gains `add`; no other slot changes |
| LazySegmentTree.FixedLazySegmentTree.Push | src/language_practice/some_ds.hpp:218-225 | both children take the node's pending add over half its width, the node owes nothing more, and the node's elements and invariant are kept |
| LazySegmentTree.FixedLazySegmentTree.Update | src/language_practice/some_ds.hpp:227-239 | the node's elements inside `[ql, qr]` gain `val`, the others keep their values, the invariant holds, and nothing outside the subtree changes |
| LazySegmentTree.FixedLazySegmentTree.QueryImpl | src/language_practice/some_ds.hpp:241-251 | the result is the sum of the node's elements inside `[ql, qr]`; the elements and invariant are kept and nothing outside the subtree changes |
| LazySegmentTree.FixedLazySegmentTree.RangeAdd | src/language_practice/some_ds.hpp:259-263 | every element of `[l, r]` gains `val` and no other changes |
| LazySegmentTree.FixedLazySegmentTree.RangeSum | src/language_practice/some_ds.hpp:265-269 | the result is the sum of the elements `l..r`, and the elements do not change |
| Fenwick.LowBit | src/language_practice/some_ds.hpp:288 | `idx & -idx` of a positive index is between 1 and the index |
| Fenwick.LowBitDividesOddly | src/language_practice/some_ds.hpp:288 | the low bit is a power of two that divides the index and leaves an odd quotient: the largest such power |
| Fenwick.LowBitGap | src/language_practice/some_ds.hpp:288 | between `c` and `c + LowBit(c)` an index has the low bit of its distance from `c` |
| Fenwick.LowBitNext | src/language_practice/some_ds.hpp:288 | each step of `add`'s loop at least doubles the low bit, so the slots visited grow in span |
| Fenwick.SumBump | src/language_practice/some_ds.hpp:286-289 | raising one element by `d` raises the sum of exactly the slices holding it by `d` |
| Fenwick.RangeIsDifference | src/language_practice/some_ds.hpp:300-303 | the sum over `[l, r]` is the prefix sum to `r` less the prefix sum before `l` (none when `l` is 0) |
| Fenwick.Applied | src/language_practice/some_ds.hpp:283-289 | the elements after a run of in-bounds `add` calls on a fresh tree, one per index |
| Fenwick.AppliedIsDeltaSum | src/language_practice/some_ds.hpp:283-289 | after a run of `add` calls each element is the sum of the deltas added at its index |
| Fenwick.AddAll | src/language_practice/some_ds.hpp:283-289 | a run of in-bounds `add` calls on a fresh tree leaves a valid tree whose elements are `Applied` of the run |
| Fenwick.FixedFenwickTree.constructor | src/language_practice/some_ds.hpp:276-283 | a valid tree of `N` zero elements |
| Fenwick.FixedFenwickTree.Add | src/language_practice/some_ds.hpp:285-289 | the element at `idx` grows by `delta`, every other element is unchanged, and every slot again holds its partial sum |
| Fenwick.FixedFenwickTree.PrefixSum | src/language_practice/some_ds.hpp:291-297 | the sum of the elements `0..idx` |
| Fenwick.FixedFenwickTree.RangeSum | src/language_practice/some_ds.hpp:299-303 | the sum of the elements `l..r` |
| DesignPattern.NextLevel | src/language_practice/design_pattern.hpp:60-74 | the level stays put exactly on Premium, and an upgrade never takes away a download that was allowed |
| DesignPattern.TwoUpgradesReachPremium | src/language_practice/design_pattern.hpp:60-74 | two upgrades take any level to Premium, which stays Premium |
| DesignPattern.LevelCap | src/language_practice/design_pattern.hpp:76-85 | below Premium, `can_download` holds exactly while the count is under the level's cap |
| DesignPattern.OldMember.constructor | src/language_practice/design_pattern.hpp:58-59 | a new member is Free with no downloads |
| DesignPattern.OldMember.Upgrade | src/language_practice/design_pattern.hpp:60-74 | the level moves one up (Premium stays), the count is kept |
| DesignPattern.OldMember.Download | src/language_practice/design_pattern.hpp:87-97 | succeeds exactly when `can_download` held, then counts one download; otherwise nothing changes |
| DesignPattern.DownloadsPerDay | src/language_practice/design_pattern.hpp:111-145 | each tier allows between 1 and 100 downloads a day, and 100 exactly on Premium |
| DesignPattern.NextKind | src/language_practice/design_pattern.hpp:117-144 | an upgrade keeps the tier exactly on Premium and never lowers the daily limit |
| DesignPattern.TierNamesDistinct | src/language_practice/design_pattern.hpp:113-136 | two tiers have the same `tier_name()` exactly when they are the same tier |
| DesignPattern.Membership.constructor | src/language_practice/design_pattern.hpp:104 | a tier object of the given subclass |
| DesignPattern.Membership.Upgrade | src/language_practice/design_pattern.hpp:117-144 | Premium returns itself; Free and Basic return a new object of the next tier |
| DesignPattern.Member.constructor | src/language_practice/design_pattern.hpp:153-154 | a new member holds a new Free tier and no downloads |
| DesignPattern.Member.Download | src/language_practice/design_pattern.hpp:158-168 | succeeds exactly when the tier's daily limit exceeds the count, then counts one download; otherwise nothing changes |
| DesignPattern.Member.Upgrade | src/language_practice/design_pattern.hpp:170 | the role becomes the next tier (the same object on Premium, a new one otherwise); the count is kept |
| DesignPattern.DesignsAgreeBelowHundred | src/language_practice/design_pattern.hpp:76-85 | the two designs agree on `can_download` at every count, except that Premium refuses from 100 downloads on where the old design never refuses |
| DesignPattern.UpgradesCorrespond | src/language_practice/design_pattern.hpp:60-74 | an upgrade moves both designs to corresponding tiers |
| Singleton.DownloadsPerDay | include/pg/language_practice/singleton.hpp:34-70 | each tier allows between 1 and 100 downloads a day, and 100 exactly on Premium |
| Singleton.NextKind | include/pg/language_practice/singleton.hpp:36-72 | an upgrade keeps the tier exactly on Premium and never lowers the daily limit |
| Singleton.Membership.constructor | include/pg/language_practice/singleton.hpp:12 | a tier instance of the given tier |
| Singleton.Tiers.constructor | include/pg/language_practice/singleton.hpp:27-67 | one instance of each tier |
| Singleton.Tiers.Instance | include/pg/language_practice/singleton.hpp:27-68 | `instance()` of a tier is that tier's one shared instance |
| Singleton.Tiers.Upgrade | include/pg/language_practice/singleton.hpp:36-72 | an upgrade hands out the next tier's shared instance, and Premium hands out itself |
| Singleton.Member.constructor | include/pg/language_practice/singleton.hpp:79-84 | a new member holds the shared Free instance and no downloads |
| Singleton.Member.Download | include/pg/language_practice/singleton.hpp:88-95 | succeeds exactly when the count is below the tier's limit, then counts one download; otherwise nothing changes |
| Singleton.Member.Upgrade | include/pg/language_practice/singleton.hpp:97 | the role becomes the next tier's shared instance; the count is kept |
| Singleton.TestSingleton | include/pg/language_practice/singleton.hpp:108-116 | Alice goes through the shared Free, Basic and Premium instances, and (a check added here, not in the source's test) any other member who upgrades twice shares that same Premium instance |
| Singleton.UpgradeChain | include/pg/language_practice/singleton.hpp:36-72 | two upgrades take any shared instance to Premium, whose upgrade is itself |
| Tips.Accumulate | src/language_practice/tips.hpp:44 | `std::accumulate` over the data from 0 is the sum of the data |
| Tips.DataProcessor.constructor | src/language_practice/tips.hpp:38 | the data is kept and nothing is cached yet |
| Tips.DataProcessor.Sum | src/language_practice/tips.hpp:41-48 | every call answers the sum of the data; the first call fills the cache and later calls leave it as it is |
| Tips.LoadedNamesPath | src/language_practice/tips.hpp:67 | the loaded text ends with the path after a fixed prefix, so different paths give different contents |
| Tips.ConfigLoader.constructor | src/language_practice/tips.hpp:59 | the path is kept and nothing is loaded yet |
| Tips.ConfigLoader.GetContents | src/language_practice/tips.hpp:62-71 | every call answers "loaded config data from " followed by the path; the first call stores it and later calls keep the stored string |
| Tips.Cell.constructor | src/language_practice/tips.hpp:79-80 | an object holding the given value, for `swap_nothrow`'s references to name |
| Tips.SwapNothrow | src/language_practice/tips.hpp:79-86 | the two objects exchange their values |
| Tips.TestNoexcept | src/language_practice/tips.hpp:88-91 | after swapping 1 and 2, `a` is 2 and `b` is 1 |
| Constexpr.CubeIsThirdPower | src/bin/constexpr.cpp:12-20 | `cube(CClass(k))` wraps `k` to the third power, and `cube(CClass(sq(k)))` wraps `k` to the sixth |
| Constexpr.PowAdd | src/bin/constexpr.cpp:12-20 | powers of the same base multiply by adding exponents |
| Constexpr.StaticAsserts | src/bin/constexpr.cpp:107-113 | the three `static_assert`s hold: 64, 729 and 8 |
| Constexpr.FibIsShiftedFibonacci | src/bin/constexpr.cpp:22-27 | `fib(n)` is the Fibonacci number two places on, because `fib` is 1 for every `n <= 0` |
| Constexpr.FibMonotone | src/bin/constexpr.cpp:22-27 | `fib` never decreases |
| Constexpr.FibEnum | src/bin/constexpr.cpp:29-33 | the enumerators are 17711, 75025 and 121393, all within a 32-bit `int` |
| Constexpr.HasIsMembership | src/bin/constexpr.cpp:82-99 | `type_list<Ts...>::has<U>()` holds exactly when `U` is among `Ts` |
| Pack.MakeVectorLeft | src/bin/pack.cpp:20-27 | the vector holds the rest of the pack in order, then the first argument |
| Pack.MakeVectorRight | src/bin/pack.cpp:29-35 | the vector holds the first argument, then the rest of the pack in order |
| Pack.PackedRotated | src/bin/pack.cpp:20-35 | both vectors have the pack's length and elements, and the left fold's vector is the right fold's rotated by one |
| Pack.PackExamples | src/bin/pack.cpp:116-127 | from (1, 2, 3, 4, 5) the left fold builds [2, 3, 4, 5, 1] and the right fold [1, 2, 3, 4, 5] |
| Pack.CText | src/bin/pack.cpp:59 | a C string's text is its longest prefix without NUL, ended by the NUL when there is one |
| Pack.Printx | src/bin/pack.cpp:54-83 | writes what the format and arguments call for, and returns the number of characters written |
| Pack.PlainRun | src/bin/pack.cpp:74-78 | a run of plain characters is written as it stands, ahead of what follows |
| Pack.NoDirectives | src/bin/pack.cpp:59-79 | a format with no `%` writes its own text up to its first NUL and uses no argument |
| Pack.TrailingPercent | src/bin/pack.cpp:60 | a `%` in the last place is written as a plain character |
| Pack.WrittenShift | src/bin/pack.cpp:59-79 | past a prefix the format is read as if the prefix were not there |
| Pack.PlainPrefix | src/bin/pack.cpp:74-78 | a prefix of plain characters is written first, as it stands |
| Pack.IntDirective | src/bin/pack.cpp:63-67 | `%d` writes the next argument in decimal |
| Pack.StrDirective | src/bin/pack.cpp:68-72 | `%s` writes the next argument's text up to its NUL |
| Pack.ExampleTail | src/bin/pack.cpp:131 | the example's tail writes ", your score is 95" and a newline, stopping at the embedded NUL |
| Pack.PrintxExample | src/bin/pack.cpp:131 | `printx("Hello %s, your score is %d\n\0", "Alice", 95)` writes "Hello Alice, your score is 95" and a newline: 30 characters |

## Left out

- The `StoragePolicy` capability set and the CRTP base `StoragePolicyBase` (src/orderbook/storage/storage_policy.hpp:13-81): the matcher and the book work on the concrete `Intrusive.IntrusiveStorage`, the one storage the source instantiates. A Dafny trait over the capabilities is not used, so the forwarding layer (each `*_impl` call passed through unchanged) is not modelled separately.
- `double` prices of the intrusive book and the bindings: every price is an integer tick count.
  - `Bindings.CreateOrder`: takes a `price` value already as ticks (`PyFloat.ticks`, or a Python `int` as its own tick count), so the float-to-price conversion is not modelled. Python values are told apart only as `int`, `float`, `str` and anything else, so conversions through `__float__`, `__index__` or `bytes`, and `bool` as an `int`, are not modelled.
  - `Book.OrderBook.GetMidPrice`: computes the mid exactly as a `real`, `(bid + ask) / 2`, with no floating-point rounding. `Book.OrderBook.GetSpread` is an integer difference of ticks.
  - `Price::from_double` and `to_double` of the fixed-point types are not modelled.
- `Allocators.SlabAllocator.Deallocate`, `Allocators.SlabAllocator.Destroy`, `Allocators.FixedPoolAllocator.Deallocate` and `Allocators.FixedPoolAllocator.Destroy`: these require a non-null pointer to be currently allocated. The source accepts a double free, or a pointer it never handed out, and corrupts its free list; that corruption is not modelled.
- `FixedHeap.FixedBinaryHeap.Push`: on overflow returns false with nothing changed. That is the release-build behaviour; a debug build stops at the `assert` at src/language_practice/some_ds.hpp:87.
- `FixedHeap.FixedBinaryHeap.Top`: requires a non-empty heap. On an empty heap the source asserts in debug builds and reads a stale slot otherwise.
- `MeBook.OrderBook.AddOrder`, `MeBook.OrderBook.Match` and `Matching.MatchingEngine.MatchOrder`: every clock reading within one call is the one `now` parameter. The source calls `Timestamp::now()` separately for the order, each Fill and each trade. `Book.Batch` and `Book.OrderBook.AddOrdersBatch` use one `now` for the whole batch; `AsyncEngine.AsyncMatchingEngine.ProcessBatch` takes one reading per order, as the source calls `add_order` once per order.
- `RingBuffer.AsyncRingBuffer.Push`, `RingBuffer.AsyncRingBuffer.Pop`, `Mpsc.BoundedMPSCQueue.TryEnqueue` and `Mpsc.BoundedMPSCQueue.TryDequeue`: the `size_t` read and write positions are unbounded naturals, so their wrap-around after 2^64 operations is not modelled.
  - `pos & (Capacity - 1)` is written `pos % Capacity`. The two are equal for the power-of-two capacities the constructors require.
- `LazySegmentTree.FixedLazySegmentTree` and `Fenwick.FixedFenwickTree`: the element type `T` is Dafny's unbounded `int`, so overflow of a fixed-width `T` is not modelled. `SegmentTree.FixedSegmentTree` is generic over `T`, `Op` and `Identity`.
  - The Fenwick tree's `idx & -idx` is `Fenwick.LowBit`, defined arithmetically as the largest power of two dividing `idx`.
- `PriceLevel.SortByPriority`: sorts order values, not nullable `Order*`.
  - It requires every order to be on one side, because the comparator is a strict weak order only there.
  - A null pointer in the vector would be dereferenced by the source's comparator (undefined behaviour), so nulls are not admitted.
  - The other price-level helpers do model null entries, as `None`.
- Concurrency: the spinlock and every `SpinlockGuard`, atomics and memory orders, compare-and-swap retry loops, and producers racing on the MPSC queues. Each call is one atomic step and every compare-and-swap succeeds at once. `Mpsc.MPSCQueue.DequeueSpin` is the consumer's wait, run on a queue that is not empty. `ConcurrentBinaryHeap` (src/language_practice/some_ds.hpp:118-152) is a lock around `FixedBinaryHeap` and adds nothing sequential.
- The matcher's statistics are `std::atomic` counters read with relaxed loads. They are plain `U64` fields with 64-bit wrap-around.
- Coroutines: promise types, `await_suspend`, the scheduler and `coro::Task`. Each awaitable of the engine and of the ring buffer is a method that does its work at once. In the source `BatchAwaitable` reports not-ready and runs the batch in `await_suspend`, its count reaching the caller when `coro::Task` resumes, and the ring buffer's awaitables report not-ready on a full or empty buffer and try again on resumption; the model keeps that effect: the batch runs at once, and `PushAsync` and `PopAsync` try twice.
- Clocks: `Order::get_timestamp`, `Trade::get_timestamp` and `Timestamp::now` are a `now` parameter.
- Layout: the 64-byte size and alignment `static_assert`s, `alignas`, placement new and `reinterpret_cast`. A pointer is a slot number of the allocator, and the intrusive `next`/`prev` links live in that slot's node.
- The move constructors and move assignments of the allocators, the queues and `IntrusiveStorage` (src/orderbook/storage/intrusive_storage.hpp:31-53): they only transfer resources.
- The pybind11 module registration, the GIL and the `__repr__` formatters of the bindings: foreign library calls.
- Console output throughout: the `std::cout` and `printf` messages, `foo`'s type-name printing in src/bin/pack.cpp, and `show()` in the singleton header. `Pack.Printx` returns the text it writes as an out-parameter.
- `Pack.Printx`: requires a format whose directives all find an argument of the right kind. A missing or mistyped variadic argument is undefined behaviour in the source.
- `get_len` (src/bin/constexpr.cpp:47-60), `print_ints` (src/bin/pack.cpp:42-52) and `MutEx` (src/language_practice/tips.hpp:14-27): type-level dispatch, `va_list` printing and `weak_ptr` lifetimes, with nothing to state beyond their types. The `Lock` and `do_raii_work` RAII demo of src/language_practice/design_pattern.hpp:5-41 only locks and unlocks a local mutex.
- `int` overflow is not modelled:
  - `DesignPattern.OldMember.Download` counts downloads as an unbounded integer; the source's `int` count could overflow on a Premium member after 2^31 downloads.
  - `Tips.Accumulate` sums in `int` in the source.
  - `sq` and `cube` of src/bin/constexpr.cpp compute in `int`, where overflow in a constant expression is a compile error; every value the program asks for fits.
  - `MeBook.MarketDepth.Spread`, `MeBook.MarketDepth.MidPrice` and `MeTypes.Price`: ticks are unbounded integers, where the source holds them in `int64_t`. Signed overflow in `ask - bid` (src/matching_engine/matching/orderbook.hpp:57), in `bid + ask` (src/matching_engine/matching/orderbook.hpp:63) and in the cast of `Price::from_double` (src/matching_engine/core/types.hpp:31) is undefined behaviour there, and the model does not capture it.
- `Singleton.Tiers`: the three shared instances exist from the start, where the Meyers singletons are created on the first call of `instance()`. No member can observe the difference.
- `DesignPattern.DownloadsPerDay`: Premium allows 100, as the code returns. The comment beside it says "unlimited".
- `LazySegmentTree.FixedLazySegmentTree.Push` takes the node's range as ghost parameters, and `update` and `query_impl` each make their two recursive calls through a helper method (`UpdateChild`, `QueryChild`). The arithmetic is the source's.
- `Book.DepthBestBid`, `Book.DepthBestAsk`, `Book.DepthSpread` and `Book.DepthMid` (the `MarketDepth` accessors of src/orderbook/storage/storage_policy.hpp:110-139) have no contract of their own. `Book.CorrectDepthSides` states what they return on the book's snapshot.
- `RingBuffer.AsyncRingBuffer.constructor`: requires what the `static_assert` demands, a power of two or no slots at all.
- `Mpsc.BoundedMPSCQueue.constructor`: requires a power of two of at least two slots, where the `static_assert` also admits one slot; see Findings.

## Findings

| source | as written | input that shows it | evidently intended | confidence | as-written member | corrected member |
|---|---|---|---|---|---|---|
| src/orderbook/orderbook.hpp:143-157 | `get_market_depth` decides bid or ask for each depth row by comparing its price with the best ask, so in a crossed book a bid level at or above the best ask is filed under the asks | `add_passive_order(100, 1, Sell)`, then `add_passive_order(105, 1, Buy)`, then `get_market_depth(10)`: bids are empty and the asks are 105 then 100 | the first rows, up to `levels` bid levels, are the bids and the rest are the asks, as the storage returns them | not executed | `Book.CrossedDepthMisfiled` (with `Book.SplitAsWritten` and `Book.OrderBook.GetMarketDepthAsWritten`) | `Book.OrderBook.GetMarketDepth` (with `Book.CorrectDepthSides` and `Book.SplitUncrossed`) |
| src/orderbook/concurrent/mpsc_queue.hpp:177 | the `static_assert` admits `Capacity` 1. A filled slot's sequence then equals the next enqueue position, so a second `try_enqueue` succeeds and overwrites the unread item | `BoundedMPSCQueue<T, 1>`: `try_enqueue(a)`, `try_enqueue(b)` both return true, `approx_size()` is 2 and `try_dequeue()` returns nothing | a capacity of at least 2, where `try_enqueue` refuses once `Capacity` items are pending and `try_dequeue` returns them in order | not executed | `Mpsc.CapacityOneOverwrites` | `Mpsc.BoundedMPSCQueue.constructor` (requires a capacity of at least 2), with `Mpsc.TryEnqFifo` and `Mpsc.TryDeqFifo` |
