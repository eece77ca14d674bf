// The engine front ends of the fixed-point engine
// (src/matching_engine/matching/async_engine.hpp): `SyncMatchingEngine`
// forwards to one map-based book, and `AsyncMatchingEngine` adds an event
// ring buffer that every submission feeds with the book's pending events.
//
// Each awaitable is a method here that does its work at once, with the
// clock readings of the book's `Timestamp::now()` passed in. In the source
// `BatchAwaitable::await_ready` returns false and the batch runs in
// `await_suspend`, the count reaching the caller when `coro::Task` resumes;
// the ring buffer's push and pop awaitables report not-ready on a full or
// empty buffer and retry once on resumption. The effect is the same: the
// batch runs at once, and a push or pop is tried twice.

module AsyncEngine {
  import opened Common
  import opened MeTypes
  import opened MeBook
  import opened RingBuffer

  /** `SyncMatchingEngine`: one book, every call forwarded unchanged. */
  class SyncMatchingEngine {
    const book: OrderBook

    ghost predicate Valid()
      reads this, book
    {
      book.Valid()
    }

    constructor ()
      ensures Valid() && fresh(book) && book.State() == BookState(map[], map[], 0, 1, [])
    {
      book := new OrderBook();
    }

    /** `add_order`: the book's `add_order`. */
    method AddOrder(price: Price, qty: Quantity, side: Side, t: OrderType, now: U64) returns (result: Result<OrderEvent>)
      requires Valid()
      modifies book
      ensures Valid()
      ensures (book.State(), result) == Submit(old(book.State()), price, qty, side, t, now)
    {
      result := book.AddOrder(price, qty, side, t, now);
    }

    /** `get_best_bid`: the book's best bid. */
    method GetBestBid() returns (r: Option<Price>)
      ensures r.None? <==> book.bids == map[]
      ensures r.Some? ==> r.value.ticks in book.bids && forall q :: q in book.bids ==> q <= r.value.ticks
    {
      r := book.GetBestBid();
    }

    /** `get_best_ask`: the book's best ask. */
    method GetBestAsk() returns (r: Option<Price>)
      ensures r.None? <==> book.asks == map[]
      ensures r.Some? ==> r.value.ticks in book.asks && forall q :: q in book.asks ==> r.value.ticks <= q
    {
      r := book.GetBestAsk();
    }

    /** `get_market_depth`: the book's depth snapshot. */
    method GetMarketDepth(maxLevels: nat) returns (depth: MarketDepth)
      ensures fresh(depth)
      ensures depth.bids == SideDepth(book.bids, Buy, maxLevels) && depth.asks == SideDepth(book.asks, Sell, maxLevels)
    {
      depth := book.GetMarketDepth(maxLevels);
    }

    /** `take_events`: the book's pending events, which it then forgets. */
    method TakeEvents() returns (events: seq<OrderEvent>)
      requires Valid()
      modifies book
      ensures Valid()
      ensures events == old(book.State()).pending && book.State() == old(book.State()).(pending := [])
    {
      events := book.TakeEvents();
    }
  }

  /**
   * One submission of `AsyncMatchingEngine`: the book after `add_order`
   * with its events handed over, the event queue with those events offered
   * to it, and the result.
   */
  ghost function SubmitStep(s: BookState, queue: seq<OrderEvent>, capacity: nat, o: OrderEvent, now: U64): (r: (BookState, seq<OrderEvent>, Result<OrderEvent>))
    requires WellFormed(s)
    ensures WellFormed(r.0)
  {
    var (s', res) := Submit(s, o.price, o.quantity, o.side, o.orderType, now);
    AddOrderKeeps(s, o.price, o.quantity, o.side, o.orderType, now);
    if IsOk(res) then (s'.(pending := []), Offer(queue, s'.pending, capacity), res)
    else (s', queue, res)
  }

  /**
   * The batch of `process_batch_async`: the orders submitted in input
   * order (the `i`-th at clock reading `nows[i]`), with the number of Ok
   * results.
   */
  ghost function Batch(s: BookState, queue: seq<OrderEvent>, capacity: nat, orders: seq<OrderEvent>, nows: seq<U64>): (r: (BookState, seq<OrderEvent>, nat))
    requires WellFormed(s) && |nows| == |orders|
    ensures WellFormed(r.0)
    decreases |orders|
  {
    if orders == [] then (s, queue, 0)
    else
      var (s', q', res) := SubmitStep(s, queue, capacity, orders[0], nows[0]);
      var (s'', q'', n) := Batch(s', q', capacity, orders[1..], nows[1..]);
      (s'', q'', n + (if IsOk(res) then 1 else 0))
  }

  /**
   * A submission always succeeds, so its events always reach the queue:
   * the ones that fit in the free slots, in the order the book made them;
   * the rest are dropped.
   */
  lemma SubmitStepOk(s: BookState, queue: seq<OrderEvent>, capacity: nat, o: OrderEvent, now: U64)
    requires WellFormed(s) && |queue| <= capacity
    ensures var (s', res) := Submit(s, o.price, o.quantity, o.side, o.orderType, now);
      var r := SubmitStep(s, queue, capacity, o, now);
      IsOk(r.2) && r.2 == res && r.0 == s'.(pending := []) &&
      r.1 == queue + s'.pending[..Min(|s'.pending|, capacity - |queue|)]
  {
    AddOrderEvent(s, o.price, o.quantity, o.side, o.orderType, now);
    var (s', res) := Submit(s, o.price, o.quantity, o.side, o.orderType, now);
    OfferKeepsPrefix(queue, s'.pending, capacity);
  }

  /** A batch counts every order: `add_order` never fails. */
  lemma {:induction false} BatchCountsAll(s: BookState, queue: seq<OrderEvent>, capacity: nat, orders: seq<OrderEvent>, nows: seq<U64>)
    requires WellFormed(s) && |nows| == |orders|
    ensures Batch(s, queue, capacity, orders, nows).2 == |orders|
    decreases |orders|
  {
    if orders != [] {
      AddOrderEvent(s, orders[0].price, orders[0].quantity, orders[0].side, orders[0].orderType, nows[0]);
      var (s', q', res) := SubmitStep(s, queue, capacity, orders[0], nows[0]);
      BatchCountsAll(s', q', capacity, orders[1..], nows[1..]);
    }
  }

  /** `AsyncMatchingEngine<EventQueueSize>`. */
  class AsyncMatchingEngine {
    const engine: SyncMatchingEngine
    const eventQueue: AsyncRingBuffer<OrderEvent>

    ghost predicate Valid()
      reads this, engine, engine.book, eventQueue, eventQueue.buffer
    {
      engine.Valid() && eventQueue.Valid()
    }

    constructor (eventQueueSize: nat)
      requires MaskCapacity(eventQueueSize)
      ensures Valid() && fresh(engine) && fresh(engine.book) && fresh(eventQueue) && fresh(eventQueue.buffer)
      ensures engine.book.State() == BookState(map[], map[], 0, 1, [])
      ensures eventQueue.contents == [] && eventQueue.capacity == eventQueueSize
    {
      engine := new SyncMatchingEngine();
      eventQueue := new AsyncRingBuffer(eventQueueSize);
    }

    /** The loop that queues a submission's events, each push refused when the queue is full. */
    method Publish(events: seq<OrderEvent>)
      requires Valid()
      modifies eventQueue, eventQueue.buffer
      ensures Valid()
      ensures eventQueue.contents == Offer(old(eventQueue.contents), events, eventQueue.capacity)
    {
      for i := 0 to |events|
        invariant eventQueue.Valid()
        invariant Offer(eventQueue.contents, events[i..], eventQueue.capacity) ==
                  Offer(old(eventQueue.contents), events, eventQueue.capacity)
      {
        assert events[i..][1..] == events[i + 1..];
        var _ := eventQueue.Push(events[i]);
      }
    }

    /**
     * `submit_order_async`: `add_order` with the event's price, quantity,
     * side and type (its order id is not used), then the book's pending
     * events into the event queue.
     */
    method SubmitOrder(order: OrderEvent, now: U64) returns (result: Result<OrderEvent>)
      requires Valid()
      modifies engine.book, eventQueue, eventQueue.buffer
      ensures Valid()
      ensures (engine.book.State(), eventQueue.contents, result) ==
              SubmitStep(old(engine.book.State()), old(eventQueue.contents), eventQueue.capacity, order, now)
    {
      result := engine.AddOrder(order.price, order.quantity, order.side, order.orderType, now);
      if IsOk(result) {
        var events := engine.TakeEvents();
        Publish(events);
      }
    }

    /** `get_best_bid_async`. */
    method GetBestBid() returns (r: Option<Price>)
      ensures r.None? <==> engine.book.bids == map[]
      ensures r.Some? ==> r.value.ticks in engine.book.bids && forall q :: q in engine.book.bids ==> q <= r.value.ticks
    {
      r := engine.GetBestBid();
    }

    /** `get_best_ask_async`. */
    method GetBestAsk() returns (r: Option<Price>)
      ensures r.None? <==> engine.book.asks == map[]
      ensures r.Some? ==> r.value.ticks in engine.book.asks && forall q :: q in engine.book.asks ==> r.value.ticks <= q
    {
      r := engine.GetBestAsk();
    }

    /** `get_event_async`: the oldest queued event, if any. */
    method GetEvent() returns (r: Option<OrderEvent>)
      requires Valid()
      modifies eventQueue
      ensures Valid()
      ensures r.None? <==> old(eventQueue.contents) == []
      ensures r.Some? ==> r.value == old(eventQueue.contents)[0] && eventQueue.contents == old(eventQueue.contents)[1..]
      ensures r.None? ==> eventQueue.contents == old(eventQueue.contents)
    {
      r := eventQueue.PopAsync();
    }

    /**
     * `process_batch_async`: each order in input order, counting the Ok
     * results and queueing the events after each of them.
     */
    method ProcessBatch(orders: seq<OrderEvent>, nows: seq<U64>) returns (processed: nat)
      requires Valid() && |nows| == |orders|
      modifies engine.book, eventQueue, eventQueue.buffer
      ensures Valid()
      ensures (engine.book.State(), eventQueue.contents, processed) ==
              Batch(old(engine.book.State()), old(eventQueue.contents), eventQueue.capacity, orders, nows)
    {
      processed := 0;
      ghost var s0 := engine.book.State();
      ghost var q0 := eventQueue.contents;
      for i := 0 to |orders|
        invariant Valid()
        invariant var (s, q, n) := Batch(engine.book.State(), eventQueue.contents, eventQueue.capacity, orders[i..], nows[i..]);
          (s, q, processed + n) == Batch(s0, q0, eventQueue.capacity, orders, nows)
      {
        assert orders[i..][1..] == orders[i + 1..] && nows[i..][1..] == nows[i + 1..];
        var result := SubmitOrder(orders[i], nows[i]);
        if IsOk(result) {
          processed := processed + 1;
        }
      }
    }

    /** `get_market_depth_async`. */
    method GetMarketDepth(maxLevels: nat) returns (depth: MarketDepth)
      ensures fresh(depth)
      ensures depth.bids == SideDepth(engine.book.bids, Buy, maxLevels) && depth.asks == SideDepth(engine.book.asks, Sell, maxLevels)
    {
      depth := engine.GetMarketDepth(maxLevels);
    }
  }
}
