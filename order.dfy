// The order and trade records of the intrusive order book
// (namespace `orderbook`, src/orderbook/core/order.hpp).
//
// Prices are integer ticks; quantities are unsigned 64-bit words. The
// intrusive `next`/`prev` pointers are not part of the value: they live in
// the storage's arena nodes (module IntrusiveStorage).

module Orders {
  import opened Common

  datatype Side = Buy | Sell
  datatype OrderType = Limit | Market
  datatype OrderStatus = New | PartiallyFilled | Filled | Cancelled

  datatype Order = Order(
    id: U64,
    timestampNs: U64,
    price: int,
    quantity: U64,
    filled: U64,
    side: Side,
    orderType: OrderType,
    status: OrderStatus)

  /** The three-way answer of `operator<=>` (prices are never NaN here). */
  datatype Ordering = Less | Equivalent | Greater

  datatype Trade = Trade(
    tradeId: U64,
    buyOrderId: U64,
    sellOrderId: U64,
    price: int,
    quantity: U64,
    timestampNs: U64)

  function Opposite(s: Side): Side {
    if s == Buy then Sell else Buy
  }

  /** The parameterised constructor; the clock reading is passed in as `now`. */
  function NewOrder(id: U64, price: int, qty: U64, side: Side, orderType: OrderType, now: U64): (o: Order)
    ensures o.id == id && o.price == price && o.quantity == qty
    ensures o.side == side && o.orderType == orderType
    ensures o.filled == 0 && o.status == New
    ensures o.timestampNs == now
  {
    Order(id, now, price, qty, 0, side, orderType, New)
  }

  /** `remaining_quantity`: unsigned difference of quantity and filled. */
  function Remaining(o: Order): (r: U64)
    ensures o.filled <= o.quantity ==> r + o.filled == o.quantity
  {
    Sub64(o.quantity, o.filled)
  }

  predicate IsFullyFilled(o: Order) {
    o.filled >= o.quantity
  }

  /** Fully filled and "nothing remains" agree while the fill never exceeds the quantity. */
  lemma FullyFilledIffNoneRemaining(o: Order)
    requires o.filled <= o.quantity
    ensures IsFullyFilled(o) <==> Remaining(o) == 0
  {
  }

  /** Once the fill passes the quantity, the unsigned remainder wraps to a huge value. */
  lemma OverfilledRemainingWraps(o: Order)
    requires o.filled > o.quantity
    ensures IsFullyFilled(o) && Remaining(o) > o.quantity
  {
  }

  /** A freshly constructed order has all of its quantity remaining. */
  lemma NewOrderRemaining(id: U64, price: int, qty: U64, side: Side, t: OrderType, now: U64)
    ensures Remaining(NewOrder(id, price, qty, side, t, now)) == qty
    ensures IsFullyFilled(NewOrder(id, price, qty, side, t, now)) <==> qty == 0
  {
  }

  /** `can_match_with`: opposite sides whose prices cross. */
  predicate CanMatchWith(a: Order, b: Order) {
    if a.side == b.side then false
    else if a.side == Buy then a.price >= b.price
    else a.price <= b.price
  }

  /** Matching is symmetric and happens exactly between a bid at or above an ask. */
  lemma CanMatchWithMeaning(a: Order, b: Order)
    ensures CanMatchWith(a, b) == CanMatchWith(b, a)
    ensures CanMatchWith(a, b) <==>
      (a.side == Buy && b.side == Sell && a.price >= b.price) ||
      (a.side == Sell && b.side == Buy && b.price >= a.price)
  {
  }

  function Cmp(x: int, y: int): Ordering {
    if x < y then Less else if x > y then Greater else Equivalent
  }

  /** `operator<=>`: price-time priority, judged by the side of the left operand. */
  function Compare(a: Order, b: Order): Ordering {
    var priceCmp := if a.side == Buy then Cmp(b.price, a.price) else Cmp(a.price, b.price);
    if priceCmp != Equivalent then priceCmp
    else Cmp(a.timestampNs, b.timestampNs)
  }

  /** `a < b` as used by `std::sort`: `a` has strictly higher priority. */
  predicate Before(a: Order, b: Order) {
    Compare(a, b) == Less
  }

  /** The priority key of an order: better price first, then earlier arrival. */
  function PriorityPrice(o: Order): int {
    if o.side == Buy then -o.price else o.price
  }

  predicate KeyLess(a: Order, b: Order) {
    PriorityPrice(a) < PriorityPrice(b) ||
    (PriorityPrice(a) == PriorityPrice(b) && a.timestampNs < b.timestampNs)
  }

  /**
   * Between orders of the same side, `Before` is the lexicographic order on
   * (better price, earlier timestamp): a higher bid or a lower ask comes
   * first, and at the same price the older order does.
   */
  lemma BeforeIsPriceTime(a: Order, b: Order)
    requires a.side == b.side
    ensures Before(a, b) <==> KeyLess(a, b)
    ensures Compare(a, b) == Equivalent <==> (a.price == b.price && a.timestampNs == b.timestampNs)
  {
  }

  /** `Before` is a strict weak order on the orders of one side. */
  lemma BeforeStrictWeak(a: Order, b: Order, c: Order)
    requires a.side == b.side == c.side
    ensures !Before(a, a)
    ensures Before(a, b) ==> !Before(b, a)
    ensures Before(a, b) && Before(b, c) ==> Before(a, c)
    ensures !Before(a, b) && !Before(b, c) ==> !Before(a, c)
  {
    BeforeIsPriceTime(a, b);
    BeforeIsPriceTime(b, c);
    BeforeIsPriceTime(a, c);
    BeforeIsPriceTime(b, a);
    BeforeIsPriceTime(a, a);
  }

  /**
   * For a buy and a sell at different prices the answer depends on the
   * left operand's side only, so both directions agree.
   */
  lemma CompareMixedSides(a: Order, b: Order)
    requires a.side == Buy && b.side == Sell && a.price != b.price
    ensures Compare(a, b) == Compare(b, a)
  {
  }

  /** `operator==`: orders are the same order when their ids agree. */
  predicate SameOrder(a: Order, b: Order) {
    a.id == b.id
  }

  /** The parameterised trade constructor; the clock reading is passed in as `now`. */
  function NewTrade(tid: U64, buyId: U64, sellId: U64, price: int, qty: U64, now: U64): (t: Trade)
    ensures t.tradeId == tid && t.buyOrderId == buyId && t.sellOrderId == sellId
    ensures t.price == price && t.quantity == qty
  {
    Trade(tid, buyId, sellId, price, qty, now)
  }
}
