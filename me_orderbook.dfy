// The map-based order book of the fixed-point engine
// (src/matching_engine/matching/orderbook.hpp): price levels in ordered maps
// of FIFO lists, matching by price-time priority, Fill events for every
// trade, and a market depth snapshot.
//
// A side's levels are a `map` from ticks to the level's orders in arrival
// order; the best price is the highest key of the bids and the lowest key of
// the asks, as the maps' orderings make `begin()`. `Run` replays the
// matching loop; the book's methods are proved to end where it ends, and the
// lemmas after it state what the loop and `add_order` promise.

module MeBook {
  import opened Common
  import opened MeTypes

  /** `matching::Order`. */
  datatype MeOrder = MeOrder(
    id: OrderId, price: Price, quantity: Quantity, filled: Quantity,
    side: Side, orderType: OrderType, timestamp: Timestamp)

  /** `DepthLevel`: a price and the quantity resting there. */
  datatype DepthLevel = DepthLevel(price: Price, quantity: Quantity)

  type Levels = map<int, seq<MeOrder>>

  function Opposite(s: Side): Side {
    if s == Buy then Sell else Buy
  }

  /** `quantity - filled` on `uint64_t`. */
  function Rem(o: MeOrder): U64 {
    Sub64(o.quantity.value, o.filled.value)
  }

  /** Every order of the levels still has quantity left. */
  ghost predicate Open(m: Levels) {
    forall p, k :: p in m && 0 <= k < |m[p]| ==> m[p][k].filled.value < m[p][k].quantity.value
  }

  /** The orders of a side: open, filed under their own price, all of that side. */
  ghost predicate Resting(m: Levels, side: Side) {
    Open(m) &&
    forall p, k :: p in m && 0 <= k < |m[p]| ==> m[p][k].price.ticks == p && m[p][k].side == side
  }

  /** The best price of a side's levels: the highest bid or the lowest ask. */
  ghost function BestOn(m: Levels, side: Side): (p: int)
    requires m.Keys != {}
    ensures p in m
    ensures side == Buy ==> forall q :: q in m ==> q <= p
    ensures side == Sell ==> forall q :: q in m ==> p <= q
  {
    if side == Buy then MaxPrice(m.Keys) else MinPrice(m.Keys)
  }

  /** `a` ranks strictly before `b` on `side`'s levels. */
  predicate Better(side: Side, a: int, b: int) {
    if side == Buy then a > b else a < b
  }

  /** `p` is a level of the side and no level ranks before it: the map's `begin()`. */
  predicate IsBest(m: Levels, side: Side, p: int) {
    p in m && forall q :: q in m ==> !Better(side, q, p)
  }

  /** The best level exists and is the only one. */
  lemma BestIsBest(m: Levels, side: Side, p: int)
    requires m.Keys != {}
    ensures IsBest(m, side, BestOn(m, side))
    ensures IsBest(m, side, p) ==> p == BestOn(m, side)
  {
  }

  /** The incoming order may trade at `p`: it is a Market order or its limit reaches `p`. */
  predicate Crosses(o: MeOrder, p: int) {
    o.orderType == Market || (if o.side == Buy then o.price.ticks >= p else o.price.ticks <= p)
  }

  /** `bids_[price].push_back(order)`: append at the tail of the level, creating it if needed. */
  function Append(m: Levels, p: int, o: MeOrder): (m': Levels)
    ensures m'.Keys == m.Keys + {p}
    ensures m'[p] == (if p in m then m[p] else []) + [o]
    ensures forall q :: q in m && q != p ==> m'[q] == m[q]
  {
    m[p := (if p in m then m[p] else []) + [o]]
  }

  // ---------------------------------------------------------------------
  // The matching loop of match_buy_order / match_sell_order

  /**
   * A match in progress: the levels of the side the incoming order trades
   * against, the incoming order, its New event, the Fill events so far and
   * the clock reading every `Timestamp::now()` of the call returns.
   */
  datatype MatchState = MatchState(levels: Levels, order: MeOrder, event: OrderEvent, fills: seq<OrderEvent>, now: U64)

  ghost function BestOf(st: MatchState): int
    requires st.levels.Keys != {}
  {
    BestOn(st.levels, Opposite(st.order.side))
  }

  /** The loop goes on while the other side has a level, the order is not filled and it crosses the best level. */
  ghost predicate Continues(st: MatchState) {
    st.levels.Keys != {} && st.order.filled.value < st.order.quantity.value &&
    Crosses(st.order, BestOf(st))
  }

  /** The Fill event of a trade of `q` at `p`, after which the order has `o` filled. */
  function FillEvent(o: MeOrder, p: int, q: U64, now: U64): OrderEvent {
    OrderEvent(Fill, o.id, Price(p), Quantity(q), o.side, o.orderType, Timestamp(now),
               FillInfo(Quantity(q), Quantity(Rem(o)), Price(p), Timestamp(now)), None)
  }

  /**
   * One pass of the loop body: an empty best level is erased; otherwise the
   * head order of the best level trades the smaller remainder at the level's
   * price, one Fill event is recorded, and the head leaves the level (and an
   * emptied level the side) when it is filled.
   */
  ghost function Step(st: MatchState): MatchState
    requires Continues(st)
  {
    var p := BestOf(st);
    var level := st.levels[p];
    if level == [] then st.(levels := st.levels - {p})
    else
      var resting := level[0];
      var q := Min(Rem(resting), Rem(st.order));
      var order := st.order.(filled := Quantity(Add64(st.order.filled.value, q)));
      var resting' := resting.(filled := Quantity(Add64(resting.filled.value, q)));
      var info := st.event.fillInfo;
      var event := st.event.(fillInfo := info.(filledQuantity := Quantity(Add64(info.filledQuantity.value, q)), fillPrice := Price(p)));
      var levels :=
        if resting'.filled.value >= resting'.quantity.value then
          (if |level| == 1 then st.levels - {p} else st.levels[p := level[1..]])
        else st.levels[p := level[0 := resting']];
      MatchState(levels, order, event, st.fills + [FillEvent(order, p, q, st.now)], st.now)
  }

  /** Each pass keeps the levels open and shortens the order's remainder or the side. */
  lemma StepShrinks(st: MatchState)
    requires Continues(st) && Open(st.levels)
    ensures Open(Step(st).levels)
    ensures Step(st).levels.Keys <= st.levels.Keys
    ensures Step(st).order.filled.value <= Step(st).order.quantity.value
    ensures Rem(Step(st).order) < Rem(st.order) ||
            (Rem(Step(st).order) == Rem(st.order) && |Step(st).levels.Keys| < |st.levels.Keys|)
  {
    var p := BestOf(st);
    var st' := Step(st);
    if st.levels[p] == [] {
      assert st'.levels.Keys == st.levels.Keys - {p};
    } else {
      var level := st.levels[p];
      assert level[0].filled.value < level[0].quantity.value;
      if |level| == 1 && st'.levels == st.levels - {p} {
        assert st'.levels.Keys == st.levels.Keys - {p};
      }
    }
  }

  /** The loop from `st` to where its condition fails. */
  ghost function Run(st: MatchState): MatchState
    requires Open(st.levels)
    decreases Rem(st.order), |st.levels.Keys|
  {
    if Continues(st) then
      StepShrinks(st);
      Run(Step(st))
    else st
  }

  /** A pass of the loop leaves the loop's outcome unchanged. */
  lemma RunStep(st: MatchState, next: MatchState)
    requires Continues(st) && Open(st.levels) && next == Step(st)
    ensures Open(next.levels) && Run(next) == Run(st)
  {
    StepShrinks(st);
  }

  // ---------------------------------------------------------------------
  // What the loop promises

  /** The Fill events of `r` after those already in `st`. */
  function Added(st: MatchState, r: MatchState): seq<OrderEvent> {
    if |st.fills| <= |r.fills| then r.fills[|st.fills|..] else []
  }

  /** Total quantity of a sequence of Fill events. */
  function SumFill(es: seq<OrderEvent>): nat {
    if es == [] then 0 else es[0].quantity.value + SumFill(es[1..])
  }

  lemma SumFillCons(e: OrderEvent, es: seq<OrderEvent>)
    ensures SumFill([e] + es) == e.quantity.value + SumFill(es)
  {
    assert ([e] + es)[1..] == es;
  }

  /**
   * The loop ends where its condition fails, having only raised the incoming
   * order's fill (never past its quantity), only removed or shortened the
   * other side's levels and kept them open.
   */
  lemma {:induction false} RunStops(st: MatchState)
    requires Open(st.levels) && st.order.filled.value <= st.order.quantity.value
    ensures var r := Run(st);
      !Continues(r) && r.now == st.now &&
      r.order == st.order.(filled := r.order.filled) &&
      st.order.filled.value <= r.order.filled.value <= r.order.quantity.value &&
      Open(r.levels) && r.levels.Keys <= st.levels.Keys && SumSizes(r.levels) <= SumSizes(st.levels)
    decreases Rem(st.order), |st.levels.Keys|
  {
    if Continues(st) {
      StepShrinks(st);
      StepSize(st);
      RunStops(Step(st));
    }
  }

  /** One pass never lengthens the side. */
  lemma StepSize(st: MatchState)
    requires Continues(st)
    ensures SumSizes(Step(st).levels) <= SumSizes(st.levels)
  {
    var p := BestOf(st);
    var level := st.levels[p];
    var m := Step(st).levels;
    if level == [] {
      SumSizesRemove(st.levels, p);
    } else if m == st.levels - {p} {
      SumSizesRemove(st.levels, p);
    } else {
      assert m == st.levels[p := m[p]] && |m[p]| <= |level|;
      SumSizesUpdate(st.levels, p, m[p]);
    }
  }

  /**
   * From `st` to `r`, every pass that traded appended one Fill event. The
   * fills add up to the raise of the order's fill, which the New event's
   * running total tracks, together with the last fill price.
   */
  ghost predicate FillsAccounted(st: MatchState, r: MatchState) {
    r.fills == st.fills + Added(st, r) &&
    r.order.filled.value == st.order.filled.value + SumFill(Added(st, r)) &&
    r.event == st.event.(fillInfo := r.event.fillInfo) &&
    r.event.fillInfo.filledQuantity == r.order.filled &&
    r.event.fillInfo.remainingQuantity == st.event.fillInfo.remainingQuantity &&
    r.event.fillInfo.fillTime == st.event.fillInfo.fillTime &&
    (Added(st, r) == [] ==> r.event.fillInfo.fillPrice == st.event.fillInfo.fillPrice) &&
    (Added(st, r) != [] ==> r.event.fillInfo.fillPrice == Added(st, r)[|Added(st, r)| - 1].price)
  }

  /** The loop's whole run accounts for its fills. */
  lemma {:induction false} RunFills(st: MatchState)
    requires Open(st.levels) && st.order.filled.value <= st.order.quantity.value
    requires st.event.fillInfo.filledQuantity == st.order.filled
    ensures FillsAccounted(st, Run(st))
    decreases Rem(st.order), |st.levels.Keys|
  {
    var r := Run(st);
    if Continues(st) {
      StepShrinks(st);
      RunFills(Step(st));
      FillsStep(st, r);
    } else {
      assert Added(st, r) == [];
    }
  }

  /** One pass in front of a run that accounts for its fills gives a run that does. */
  lemma FillsStep(st: MatchState, r: MatchState)
    requires Continues(st) && Open(st.levels)
    requires FillsAccounted(Step(st), r)
    ensures FillsAccounted(st, r)
  {
    var st' := Step(st);
    var p := BestOf(st);
    if st.levels[p] == [] {
      assert Added(st, r) == Added(st', r);
    } else {
      var e := FillEvent(st'.order, p, st'.fills[|st.fills|].quantity.value, st.now);
      assert st'.fills == st.fills + [e];
      assert st.levels[p][0].filled.value < st.levels[p][0].quantity.value;
      assert Added(st, r) == [e] + Added(st', r);
      SumFillCons(e, Added(st', r));
      if Added(st', r) != [] {
        assert Added(st, r)[|Added(st, r)| - 1] == Added(st', r)[|Added(st', r)| - 1];
      }
    }
  }

  /** `e` is a Fill event of a trade of the order `o`, stamped `now`. */
  predicate FillFor(e: OrderEvent, o: MeOrder, now: U64) {
    e.eventType == Fill && e.orderId == o.id && e.side == o.side &&
    e.orderType == o.orderType && e.quantity.value > 0 && Crosses(o, e.price.ticks) &&
    e.fillInfo.filledQuantity == e.quantity && e.fillInfo.fillPrice == e.price && e.timestamp.nanoseconds == now
  }

  /** A pass that trades appends one Fill event for the incoming order. */
  lemma StepFill(st: MatchState)
    requires Continues(st) && Open(st.levels) && st.levels[BestOf(st)] != []
    ensures |Step(st).fills| == |st.fills| + 1
    ensures Step(st).fills == st.fills + [Step(st).fills[|st.fills|]]
    ensures FillFor(Step(st).fills[|st.fills|], st.order, st.now)
  {
    var p := BestOf(st);
    assert st.levels[p][0].filled.value < st.levels[p][0].quantity.value;
  }

  /**
   * Each Fill event the loop appends is for the incoming order, of a
   * positive quantity, at a price the order crosses, stamped with the
   * clock reading.
   */
  lemma {:induction false} RunFillEvents(st: MatchState)
    requires Open(st.levels) && st.order.filled.value <= st.order.quantity.value
    requires st.event.fillInfo.filledQuantity == st.order.filled
    ensures forall e :: e in Added(st, Run(st)) ==> FillFor(e, st.order, st.now)
    decreases Rem(st.order), |st.levels.Keys|
  {
    var r := Run(st);
    RunFills(st);
    if Continues(st) {
      StepShrinks(st);
      var st' := Step(st);
      RunFills(st');
      RunFillEvents(st');
      assert st'.order == st.order.(filled := st'.order.filled);
      assert forall e :: FillFor(e, st'.order, st.now) ==> FillFor(e, st.order, st.now);
      if st.levels[BestOf(st)] == [] {
        assert Added(st, r) == Added(st', r);
      } else {
        StepFill(st);
        assert Added(st, r) == [st'.fills[|st.fills|]] + Added(st', r);
      }
    } else {
      assert Added(st, r) == [];
    }
  }

  /** One pass keeps a side's orders resting on it. */
  lemma StepResting(st: MatchState, side: Side)
    requires Continues(st) && Resting(st.levels, side)
    ensures Resting(Step(st).levels, side)
  {
    StepShrinks(st);
    var st' := Step(st);
    forall p, k | p in st'.levels && 0 <= k < |st'.levels[p]|
      ensures st'.levels[p][k].price.ticks == p && st'.levels[p][k].side == side
    {
      var b := BestOf(st);
      if p == b && st.levels[b] != [] && st'.levels[p] != st.levels[b][0 := st'.levels[p][0]] {
        assert st'.levels[p][k] == st.levels[b][k + 1];
      } else if p == b && st.levels[b] != [] {
        assert st'.levels[p][k].price == st.levels[b][k].price;
      }
    }
  }

  lemma {:induction false} RunResting(st: MatchState, side: Side)
    requires Resting(st.levels, side)
    ensures Resting(Run(st).levels, side)
    decreases Rem(st.order), |st.levels.Keys|
  {
    if Continues(st) {
      StepShrinks(st);
      StepResting(st, side);
      RunResting(Step(st), side);
    }
  }

  // ---------------------------------------------------------------------
  // add_order

  /** The book's state: both sides, the order count, the id counter and the pending Fill events. */
  datatype BookState = BookState(bids: Levels, asks: Levels, orderCount: nat, nextOrderId: U64, pending: seq<OrderEvent>)

  ghost predicate WellFormed(s: BookState) {
    Resting(s.bids, Buy) && Resting(s.asks, Sell) && s.orderCount == SumSizes(s.bids) + SumSizes(s.asks)
  }

  function SideOf(s: BookState, side: Side): Levels {
    if side == Buy then s.bids else s.asks
  }

  /** The New event of a submission: the order's own fields and a default `FillInfo`. */
  function NewEvent(o: MeOrder): (e: OrderEvent)
    ensures e.eventType == New && e.orderId == o.id && e.price == o.price && e.quantity == o.quantity
    ensures e.side == o.side && e.orderType == o.orderType && e.timestamp == o.timestamp
    ensures e.fillInfo == DefaultFillInfo()
  {
    OrderEvent(New, o.id, o.price, o.quantity, o.side, o.orderType, o.timestamp, FillInfo(Quantity(0), Quantity(0), Price(0), Timestamp(0)), None)
  }

  /** The order `add_order` builds: the next id, nothing filled, stamped `now`. */
  function Submitted(s: BookState, price: Price, qty: Quantity, side: Side, t: OrderType, now: U64): MeOrder {
    MeOrder(OrderId(s.nextOrderId), price, qty, Quantity(0), side, t, Timestamp(now))
  }

  ghost function MatchOf(s: BookState, price: Price, qty: Quantity, side: Side, t: OrderType, now: U64): MatchState
    requires Open(SideOf(s, Opposite(side)))
  {
    var o := Submitted(s, price, qty, side, t, now);
    Run(MatchState(SideOf(s, Opposite(side)), o, NewEvent(o), [], now))
  }

  /**
   * `add_order`: match against the other side, then rest a Limit remainder
   * at the tail of its level; the result is always Ok and carries the New
   * event with the matched total, the last fill price and the remainder.
   */
  ghost function Submit(s: BookState, price: Price, qty: Quantity, side: Side, t: OrderType, now: U64): (BookState, Result<OrderEvent>)
    requires WellFormed(s)
  {
    var r := MatchOf(s, price, qty, side, t, now);
    var o := r.order;
    var event := r.event.(fillInfo := r.event.fillInfo.(remainingQuantity := Quantity(Rem(o))));
    var rests := o.filled.value < o.quantity.value && t == Limit;
    var removed := SumSizes(SideOf(s, Opposite(side))) - SumSizes(r.levels);
    var own := if rests then Append(SideOf(s, side), price.ticks, o) else SideOf(s, side);
    var count := s.orderCount - removed + (if rests then 1 else 0);
    var bids := if side == Buy then own else r.levels;
    var asks := if side == Buy then r.levels else own;
    (BookState(bids, asks, count, Add64(s.nextOrderId, 1), s.pending + r.fills), Ok(event))
  }

  /** No bid level is at or above an ask level. */
  ghost predicate Uncrossed(s: BookState) {
    forall b, a :: b in s.bids && a in s.asks ==> b < a
  }

  /** The match of `add_order` starts from a fresh order with its New event and ends with the loop's facts. */
  lemma MatchFacts(s: BookState, price: Price, qty: Quantity, side: Side, t: OrderType, now: U64)
    requires WellFormed(s)
    ensures Open(SideOf(s, Opposite(side)))
    ensures var o := Submitted(s, price, qty, side, t, now);
      var st := MatchState(SideOf(s, Opposite(side)), o, NewEvent(o), [], now);
      var r := MatchOf(s, price, qty, side, t, now);
      r == Run(st) && Added(st, r) == r.fills &&
      !Continues(r) && r.order == o.(filled := r.order.filled) && r.order.filled.value <= qty.value &&
      Resting(r.levels, Opposite(side)) && r.levels.Keys <= SideOf(s, Opposite(side)).Keys &&
      SumSizes(r.levels) <= SumSizes(SideOf(s, Opposite(side))) &&
      r.order.filled.value == SumFill(r.fills) &&
      r.event == NewEvent(o).(fillInfo := r.event.fillInfo) &&
      r.event.fillInfo.filledQuantity == r.order.filled &&
      (forall e :: e in r.fills ==>
        e.eventType == Fill && e.orderId == o.id && e.side == side && e.orderType == t &&
        e.quantity.value > 0 && Crosses(o, e.price.ticks) && e.timestamp.nanoseconds == now)
  {
    var o := Submitted(s, price, qty, side, t, now);
    var st := MatchState(SideOf(s, Opposite(side)), o, NewEvent(o), [], now);
    RunStops(st);
    RunFills(st);
    RunFillEvents(st);
    RunResting(st, Opposite(side));
  }

  /** The matched order is the submitted one with only its fill changed. */
  lemma MatchKeepsOrder(s: BookState, price: Price, qty: Quantity, side: Side, t: OrderType, now: U64)
    requires WellFormed(s)
    ensures Open(SideOf(s, Opposite(side)))
    ensures var o := Submitted(s, price, qty, side, t, now);
      MatchOf(s, price, qty, side, t, now).order == o.(filled := MatchOf(s, price, qty, side, t, now).order.filled)
  {
    MatchFacts(s, price, qty, side, t, now);
  }

  /**
   * `add_order` always succeeds with the New event of the order it built:
   * the next id, the given fields, the clock reading; its fill total is the
   * sum of the Fill events it appended, all for that id and of positive
   * quantity, and filled plus remaining is the quantity. A Limit order never
   * trades beyond its limit. The id counter moves on by one.
   */
  lemma AddOrderEvent(s: BookState, price: Price, qty: Quantity, side: Side, t: OrderType, now: U64)
    requires WellFormed(s)
    ensures var (s', res) := Submit(s, price, qty, side, t, now);
      |s.pending| <= |s'.pending| && s'.pending == s.pending + s'.pending[|s.pending|..] &&
      IsOk(res) && res.value.eventType == New && res.value.orderId == OrderId(s.nextOrderId) &&
      res.value.price == price && res.value.quantity == qty && res.value.side == side &&
      res.value.orderType == t && res.value.timestamp == Timestamp(now) &&
      res.value.fillInfo.filledQuantity.value + res.value.fillInfo.remainingQuantity.value == qty.value &&
      res.value.fillInfo.filledQuantity.value == SumFill(s'.pending[|s.pending|..]) &&
      s'.nextOrderId == Add64(s.nextOrderId, 1)
    ensures var s' := Submit(s, price, qty, side, t, now).0;
      forall e :: e in s'.pending[|s.pending|..] ==>
        e.eventType == Fill && e.orderId == OrderId(s.nextOrderId) && e.quantity.value > 0 &&
        (t == Limit && side == Buy ==> e.price.ticks <= price.ticks) &&
        (t == Limit && side == Sell ==> e.price.ticks >= price.ticks)
  {
    MatchFacts(s, price, qty, side, t, now);
    var r := MatchOf(s, price, qty, side, t, now);
    var s' := Submit(s, price, qty, side, t, now).0;
    assert s'.pending[|s.pending|..] == r.fills;
  }

  /**
   * The remainder rests exactly when something is left of a Limit order: it
   * joins the tail of its price level with the fill it got, and then the
   * other side is empty or its best price is beyond the limit. A Market
   * remainder is dropped and leaves the order's own side as it was. The
   * other side only loses levels.
   */
  lemma AddOrderRests(s: BookState, price: Price, qty: Quantity, side: Side, t: OrderType, now: U64)
    requires WellFormed(s)
    ensures var (s', res) := Submit(s, price, qty, side, t, now);
      var rests := res.value.fillInfo.remainingQuantity.value > 0 && t == Limit;
      var own := SideOf(s, side);
      (rests ==> SideOf(s', side) == Append(own, price.ticks,
                   MeOrder(OrderId(s.nextOrderId), price, qty, res.value.fillInfo.filledQuantity, side, t, Timestamp(now)))) &&
      (!rests ==> SideOf(s', side) == own) &&
      (rests ==> SideOf(s', Opposite(side)) == map[] ||
                 !Crosses(Submitted(s, price, qty, side, t, now), BestOn(SideOf(s', Opposite(side)), Opposite(side)))) &&
      SideOf(s', Opposite(side)).Keys <= SideOf(s, Opposite(side)).Keys
  {
    MatchFacts(s, price, qty, side, t, now);
  }

  /** Appending an open order of the side under its own price keeps the side resting and adds one order. */
  lemma AppendResting(m: Levels, side: Side, o: MeOrder)
    requires Resting(m, side) && o.side == side && o.filled.value < o.quantity.value
    ensures Resting(Append(m, o.price.ticks, o), side)
    ensures SumSizes(Append(m, o.price.ticks, o)) == SumSizes(m) + 1
  {
    var p := o.price.ticks;
    var m' := Append(m, p, o);
    SumSizesUpdate(m, p, m'[p]);
    forall q, k | q in m' && 0 <= k < |m'[q]|
      ensures m'[q][k].filled.value < m'[q][k].quantity.value && m'[q][k].price.ticks == q && m'[q][k].side == side
    {
      if q == p && k < |m'[q]| - 1 {
        assert m'[q][k] == m[q][k];
      }
    }
  }

  /** `add_order` keeps the book well formed: the order count is the number of resting orders. */
  lemma AddOrderKeeps(s: BookState, price: Price, qty: Quantity, side: Side, t: OrderType, now: U64)
    requires WellFormed(s)
    ensures WellFormed(Submit(s, price, qty, side, t, now).0)
  {
    MatchFacts(s, price, qty, side, t, now);
    var r := MatchOf(s, price, qty, side, t, now);
    if r.order.filled.value < r.order.quantity.value && t == Limit {
      AppendResting(SideOf(s, side), side, r.order);
    }
  }

  /** `add_order` never leaves the book crossed: a remainder rests only short of the other side's best price. */
  lemma AddOrderUncrossed(s: BookState, price: Price, qty: Quantity, side: Side, t: OrderType, now: U64)
    requires WellFormed(s) && Uncrossed(s)
    ensures Uncrossed(Submit(s, price, qty, side, t, now).0)
  {
    MatchFacts(s, price, qty, side, t, now);
    var r := MatchOf(s, price, qty, side, t, now);
    if r.order.filled.value < r.order.quantity.value && t == Limit && r.levels != map[] {
      var best := BestOn(r.levels, Opposite(side));
      assert !Crosses(Submitted(s, price, qty, side, t, now), best);
    }
  }

  // ---------------------------------------------------------------------
  // Market depth

  /** A level's summed remainder, added up in a `uint64_t` as the depth loop does. */
  function LevelTotal(vs: seq<MeOrder>): U64 {
    if vs == [] then 0 else Add64(LevelTotal(vs[..|vs| - 1]), Rem(vs[|vs| - 1]))
  }

  /**
   * One side of `get_market_depth`: its levels best first, skipping levels
   * whose total is zero, until `n` rows are listed.
   */
  ghost function SideDepth(m: Levels, side: Side, n: nat): seq<DepthLevel>
    decreases |m.Keys|
  {
    if n == 0 || m.Keys == {} then []
    else
      var p := BestOn(m, side);
      var t := LevelTotal(m[p]);
      assert |(m - {p}).Keys| < |m.Keys| by {
        assert (m - {p}).Keys == m.Keys - {p};
      }
      if t > 0 then [DepthLevel(Price(p), Quantity(t))] + SideDepth(m - {p}, side, n - 1)
      else SideDepth(m - {p}, side, n)
  }

  /** The best level of a side; the rest of the side without it. */
  lemma PopBest(m: Levels, side: Side)
    requires m.Keys != {}
    ensures (m - {BestOn(m, side)}).Keys == m.Keys - {BestOn(m, side)}
    ensures forall q :: q in m - {BestOn(m, side)} ==> Better(side, BestOn(m, side), q)
  {
  }

  /**
   * The rows of a side's depth: at most `n`, each a level of the side with
   * its positive total, strictly best first.
   */
  lemma {:induction false} SideDepthRows(m: Levels, side: Side, n: nat)
    ensures var rows := SideDepth(m, side, n);
      |rows| <= n &&
      (forall i :: 0 <= i < |rows| ==>
        rows[i].price.ticks in m && rows[i].quantity.value == LevelTotal(m[rows[i].price.ticks]) && rows[i].quantity.value > 0) &&
      (forall i, j :: 0 <= i < j < |rows| ==> Better(side, rows[i].price.ticks, rows[j].price.ticks))
    decreases |m.Keys|
  {
    if n != 0 && m.Keys != {} {
      var p0 := BestOn(m, side);
      PopBest(m, side);
      var n' := if LevelTotal(m[p0]) > 0 then n - 1 else n;
      SideDepthRows(m - {p0}, side, n');
    }
  }

  /** A level with a positive total that the depth does not list lies beyond `n` listed better rows. */
  lemma {:induction false} SideDepthComplete(m: Levels, side: Side, n: nat, p: int)
    requires p in m && LevelTotal(m[p]) > 0
    requires forall i :: 0 <= i < |SideDepth(m, side, n)| ==> SideDepth(m, side, n)[i].price.ticks != p
    ensures |SideDepth(m, side, n)| == n
    ensures forall i :: 0 <= i < |SideDepth(m, side, n)| ==> Better(side, SideDepth(m, side, n)[i].price.ticks, p)
    decreases |m.Keys|
  {
    if n != 0 {
      var p0 := BestOn(m, side);
      PopBest(m, side);
      var rest := m - {p0};
      var rows := SideDepth(m, side, n);
      if LevelTotal(m[p0]) > 0 {
        var rows' := SideDepth(rest, side, n - 1);
        assert rows == [DepthLevel(Price(p0), Quantity(LevelTotal(m[p0])))] + rows';
        assert rows[0].price.ticks != p;
        forall i | 0 <= i < |rows'| ensures rows'[i].price.ticks != p {
          assert rows[i + 1] == rows'[i];
        }
        SideDepthComplete(rest, side, n - 1, p);
      } else {
        SideDepthComplete(rest, side, n, p);
      }
    }
  }

  /** `(a + b) / 2` in C++: integer division truncating toward zero. */
  function HalfTowardZero(x: int): (h: int)
    ensures x >= 0 ==> 2 * h <= x < 2 * h + 2
    ensures x < 0 ==> 2 * h - 2 < x <= 2 * h
  {
    if x >= 0 then x / 2 else -((-x) / 2)
  }

  /** The spread of a snapshot: nothing unless both sides have a row, else ask minus bid. */
  function SpreadOf(bids: seq<DepthLevel>, asks: seq<DepthLevel>): Option<Price> {
    if bids == [] || asks == [] then None else Some(Price(asks[0].price.ticks - bids[0].price.ticks))
  }

  /** The mid price of a snapshot: the truncated half of the best bid plus the best ask. */
  function MidOf(bids: seq<DepthLevel>, asks: seq<DepthLevel>): Option<Price> {
    if bids == [] || asks == [] then None else Some(Price(HalfTowardZero(bids[0].price.ticks + asks[0].price.ticks)))
  }

  /**
   * The quotes of a snapshot taken from a well-formed, uncrossed book: the
   * spread is positive and the truncated mid lies between the best bid and
   * the best ask; without a row on either side both are absent.
   */
  lemma DepthQuotes(s: BookState, n: nat)
    requires WellFormed(s) && Uncrossed(s)
    ensures var bids := SideDepth(s.bids, Buy, n);
      var asks := SideDepth(s.asks, Sell, n);
      (SpreadOf(bids, asks).None? <==> bids == [] || asks == []) &&
      (MidOf(bids, asks).None? <==> bids == [] || asks == []) &&
      (bids != [] && asks != [] ==>
        SpreadOf(bids, asks).value.ticks > 0 &&
        bids[0].price.ticks <= MidOf(bids, asks).value.ticks <= asks[0].price.ticks)
  {
    SideDepthRows(s.bids, Buy, n);
    SideDepthRows(s.asks, Sell, n);
  }

  /**
   * With a truncating division the mid of a negative odd sum rounds up, where
   * Dafny's (Euclidean) division would round it down.
   */
  lemma MidTruncates()
    ensures MidOf([DepthLevel(Price(-3), Quantity(1))], [DepthLevel(Price(0), Quantity(1))]) == Some(Price(-1))
    ensures (-3 + 0) / 2 == -2
  {
  }

  /** `MarketDepth`: the rows of a snapshot, bids then asks, each best first. */
  class MarketDepth {
    var bids: seq<DepthLevel>
    var asks: seq<DepthLevel>

    constructor ()
      ensures bids == [] && asks == []
    {
      bids := [];
      asks := [];
    }

    method AddBid(price: Price, qty: Quantity)
      modifies this
      ensures bids == old(bids) + [DepthLevel(price, qty)] && asks == old(asks)
    {
      bids := bids + [DepthLevel(price, qty)];
    }

    method AddAsk(price: Price, qty: Quantity)
      modifies this
      ensures asks == old(asks) + [DepthLevel(price, qty)] && bids == old(bids)
    {
      asks := asks + [DepthLevel(price, qty)];
    }

    function BidLevels(): nat
      reads this
    {
      |bids|
    }

    function AskLevels(): nat
      reads this
    {
      |asks|
    }

    /** `bid(level)`: the row at `level`, or nothing past the last row. */
    function Bid(level: nat): (r: Option<DepthLevel>)
      reads this
      ensures r.None? <==> level >= BidLevels()
      ensures r.Some? ==> r.value == bids[level]
    {
      if level >= |bids| then None else Some(bids[level])
    }

    /** `ask(level)`: the row at `level`, or nothing past the last row. */
    function Ask(level: nat): (r: Option<DepthLevel>)
      reads this
      ensures r.None? <==> level >= AskLevels()
      ensures r.Some? ==> r.value == asks[level]
    {
      if level >= |asks| then None else Some(asks[level])
    }

    /** `spread()`: ask 0 minus bid 0, when both exist. */
    function Spread(): (r: Option<Price>)
      reads this
      ensures r.None? <==> Bid(0).None? || Ask(0).None?
      ensures r.Some? ==> r.value.ticks == Ask(0).value.price.ticks - Bid(0).value.price.ticks
    {
      SpreadOf(bids, asks)
    }

    /** `mid_price()`: half of bid 0 plus ask 0, truncated toward zero, when both exist. */
    function MidPrice(): (r: Option<Price>)
      reads this
      ensures r.None? <==> Bid(0).None? || Ask(0).None?
      ensures r.Some? ==> r.value.ticks == HalfTowardZero(Bid(0).value.price.ticks + Ask(0).value.price.ticks)
    {
      MidOf(bids, asks)
    }
  }

  /** The inner loop of `get_market_depth`: a level's remainders summed in a `uint64_t`. */
  method SumLevel(orders: seq<MeOrder>) returns (total: U64)
    ensures total == LevelTotal(orders)
  {
    total := 0;
    for i := 0 to |orders|
      invariant total == LevelTotal(orders[..i])
    {
      assert orders[..i + 1][..i] == orders[..i];
      total := Add64(total, Sub64(orders[i].quantity.value, orders[i].filled.value));
    }
    assert orders[..|orders|] == orders;
  }

  /** The first pass of a side's depth: the best level, listed when its total is positive. */
  lemma SideDepthUnfold(m: Levels, side: Side, n: nat)
    requires n > 0 && m.Keys != {}
    ensures var p := BestOn(m, side);
      SideDepth(m, side, n) ==
        if LevelTotal(m[p]) > 0 then [DepthLevel(Price(p), Quantity(LevelTotal(m[p])))] + SideDepth(m - {p}, side, n - 1)
        else SideDepth(m - {p}, side, n)
  {
  }

  /**
   * The loop invariant of a depth loop: the rows listed so far, followed by
   * the depth of the levels not yet visited, are the side's depth. It is
   * kept behind `Sealed` so that the loops see it only through the lemmas
   * below.
   */
  ghost predicate ListedSoFar(m: Levels, rest: Levels, side: Side, n: nat, rows: seq<DepthLevel>) {
    forall k {:trigger Sealed(rows, k)} :: Sealed(rows, k) ==>
      |rows| <= n && rows + SideDepth(rest, side, n - |rows|) == SideDepth(m, side, n)
  }

  /** Closes `ListedSoFar` over its plain statement. */
  lemma SealListed(m: Levels, rest: Levels, side: Side, n: nat, rows: seq<DepthLevel>)
    requires |rows| <= n && rows + SideDepth(rest, side, n - |rows|) == SideDepth(m, side, n)
    ensures ListedSoFar(m, rest, side, n, rows)
  {
    forall k | Sealed(rows, k)
      ensures |rows| <= n && rows + SideDepth(rest, side, n - |rows|) == SideDepth(m, side, n)
    {
    }
  }

  /** Nothing listed yet: the invariant holds at the start. */
  lemma DepthStart(m: Levels, side: Side, n: nat)
    ensures ListedSoFar(m, m, side, n, [])
  {
    var none: seq<DepthLevel> := [];
    assert none + SideDepth(m, side, n) == SideDepth(m, side, n);
    SealListed(m, m, side, n, none);
  }

  /** At the loop's exit (no levels left, or `n` rows) the rows are the side's depth. */
  lemma DepthDone(m: Levels, rest: Levels, side: Side, n: nat, rows: seq<DepthLevel>)
    requires ListedSoFar(m, rest, side, n, rows) && (rest == map[] || |rows| >= n)
    ensures rows == SideDepth(m, side, n)
  {
    assert Sealed(rows, 0);
  }

  /** A pass of a depth loop lists the best level when its total is positive. */
  lemma DepthStep(m: Levels, rest: Levels, side: Side, n: nat, rows: seq<DepthLevel>, p: int)
    requires |rows| < n && rest != map[] && p == BestOn(rest, side)
    requires rows + SideDepth(rest, side, n - |rows|) == SideDepth(m, side, n)
    ensures var total := LevelTotal(rest[p]);
      var rows' := if total > 0 then rows + [DepthLevel(Price(p), Quantity(total))] else rows;
      |rows'| <= n && rows' + SideDepth(rest - {p}, side, n - |rows'|) == SideDepth(m, side, n)
  {
    var k := n - |rows|;
    var total := LevelTotal(rest[p]);
    SideDepthUnfold(rest, side, k);
    if total > 0 {
      var d := DepthLevel(Price(p), Quantity(total));
      var tail := SideDepth(rest - {p}, side, k - 1);
      assert SideDepth(rest, side, k) == [d] + tail;
      assert rows + ([d] + tail) == (rows + [d]) + tail;
      assert n - |rows + [d]| == k - 1;
    } else {
      assert SideDepth(rest, side, k) == SideDepth(rest - {p}, side, k);
    }
  }

  /** `DepthStep` on the sealed invariant. */
  lemma DepthPass(m: Levels, rest: Levels, side: Side, n: nat, rows: seq<DepthLevel>, p: int)
    requires ListedSoFar(m, rest, side, n, rows)
    requires |rows| < n && rest != map[] && p == BestOn(rest, side)
    ensures var total := LevelTotal(rest[p]);
      ListedSoFar(m, rest - {p}, side, n, if total > 0 then rows + [DepthLevel(Price(p), Quantity(total))] else rows)
  {
    assert Sealed(rows, 0);
    DepthStep(m, rest, side, n, rows, p);
    var total := LevelTotal(rest[p]);
    SealListed(m, rest - {p}, side, n, if total > 0 then rows + [DepthLevel(Price(p), Quantity(total))] else rows);
  }

  /** The bid loop of `get_market_depth`: walk the levels best first, list positive totals until `n` rows. */
  method AddBids(depth: MarketDepth, m: Levels, n: nat)
    modifies depth
    ensures depth.bids == old(depth.bids) + SideDepth(m, Buy, n) && depth.asks == old(depth.asks)
  {
    var count := 0;
    var rest := m;
    ghost var rows: seq<DepthLevel> := [];
    DepthStart(m, Buy, n);
    while rest != map[]
      invariant count == |rows|
      invariant ListedSoFar(m, rest, Buy, n, rows)
      invariant depth.bids == old(depth.bids) + rows && depth.asks == old(depth.asks)
      decreases |rest.Keys|
    {
      if count >= n {
        break;
      }
      BestIsBest(rest, Buy, BestOn(rest, Buy));
      var p :| IsBest(rest, Buy, p);
      BestIsBest(rest, Buy, p);
      DepthPass(m, rest, Buy, n, rows, p);
      var total := SumLevel(rest[p]);
      if total > 0 {
        depth.AddBid(Price(p), Quantity(total));
        rows := rows + [DepthLevel(Price(p), Quantity(total))];
        count := count + 1;
      }
      assert (rest - {p}).Keys == rest.Keys - {p};
      rest := rest - {p};
    }
    DepthDone(m, rest, Buy, n, rows);
  }

  /** The ask loop of `get_market_depth`: walk the levels best first, list positive totals until `n` rows. */
  method AddAsks(depth: MarketDepth, m: Levels, n: nat)
    modifies depth
    ensures depth.asks == old(depth.asks) + SideDepth(m, Sell, n) && depth.bids == old(depth.bids)
  {
    var count := 0;
    var rest := m;
    ghost var rows: seq<DepthLevel> := [];
    DepthStart(m, Sell, n);
    while rest != map[]
      invariant count == |rows|
      invariant ListedSoFar(m, rest, Sell, n, rows)
      invariant depth.asks == old(depth.asks) + rows && depth.bids == old(depth.bids)
      decreases |rest.Keys|
    {
      if count >= n {
        break;
      }
      BestIsBest(rest, Sell, BestOn(rest, Sell));
      var p :| IsBest(rest, Sell, p);
      BestIsBest(rest, Sell, p);
      DepthPass(m, rest, Sell, n, rows, p);
      var total := SumLevel(rest[p]);
      if total > 0 {
        depth.AddAsk(Price(p), Quantity(total));
        rows := rows + [DepthLevel(Price(p), Quantity(total))];
        count := count + 1;
      }
      assert (rest - {p}).Keys == rest.Keys - {p};
      rest := rest - {p};
    }
    DepthDone(m, rest, Sell, n, rows);
  }

  // ---------------------------------------------------------------------
  // The book

  /**
   * One trade against the head order of the level at `p` (the best price
   * of the other side): both orders fill the smaller remainder, one Fill
   * event is made, and the head leaves the level (and an emptied level
   * the side) when it is filled, which `headFilled` reports.
   */
  method TradeHead(levels0: Levels, p: int, order0: MeOrder, event0: OrderEvent, ghost fills0: seq<OrderEvent>, now: U64)
    returns (levels: Levels, order: MeOrder, event: OrderEvent, fillEvent: OrderEvent, headFilled: bool)
    requires Continues(MatchState(levels0, order0, event0, fills0, now))
    requires p == BestOf(MatchState(levels0, order0, event0, fills0, now)) && levels0[p] != []
    ensures MatchState(levels, order, event, fills0 + [fillEvent], now) == Step(MatchState(levels0, order0, event0, fills0, now))
    ensures SumSizes(levels) == SumSizes(levels0) - (if headFilled then 1 else 0)
  {
    var level := levels0[p];
    var resting := level[0];
    var restingQty := Sub64(resting.quantity.value, resting.filled.value);
    var incomingQty := Sub64(order0.quantity.value, order0.filled.value);
    var fillQty := Min(restingQty, incomingQty);
    order := order0.(filled := Quantity(Add64(order0.filled.value, fillQty)));
    resting := resting.(filled := Quantity(Add64(resting.filled.value, fillQty)));
    fillEvent := FillEvent(order, p, fillQty, now);
    event := event0.(fillInfo := event0.fillInfo.(filledQuantity := Quantity(Add64(event0.fillInfo.filledQuantity.value, fillQty)), fillPrice := Price(p)));
    headFilled := resting.filled.value >= resting.quantity.value;
    if headFilled {
      SumSizesAtLeast(levels0, p);
      level := level[1..];
      if level == [] {
        SumSizesRemove(levels0, p);
        levels := levels0 - {p};
      } else {
        SumSizesUpdate(levels0, p, level);
        levels := levels0[p := level];
      }
    } else {
      SumSizesUpdate(levels0, p, level[0 := resting]);
      levels := levels0[p := level[0 := resting]];
    }
  }

  /**
   * The loop of `match_buy_order` / `match_sell_order` on the other side's
   * levels `levels0`: it runs `Run`, and returns the Fill events it made and
   * the number of resting orders it filled completely.
   */
  method MatchSide(levels0: Levels, order0: MeOrder, event0: OrderEvent, now: U64)
    returns (levels: Levels, order: MeOrder, event: OrderEvent, fills: seq<OrderEvent>, removed: nat)
    requires Resting(levels0, Opposite(order0.side))
    ensures var r := Run(MatchState(levels0, order0, event0, [], now));
      levels == r.levels && order == r.order && event == r.event && fills == r.fills
    ensures Resting(levels, Opposite(order0.side))
    ensures SumSizes(levels) == SumSizes(levels0) - removed
  {
    var buying := order0.side == Buy;
    ghost var against := Opposite(order0.side);
    ghost var start := MatchState(levels0, order0, event0, [], now);
    levels, order, event, fills, removed := levels0, order0, event0, [], 0;
    while levels != map[] && order.filled.value < order.quantity.value
      invariant Resting(levels, against)
      invariant order.side == order0.side
      invariant Run(MatchState(levels, order, event, fills, now)) == Run(start)
      invariant SumSizes(levels) == SumSizes(levels0) - removed
      decreases Rem(order), |levels.Keys|
    {
      ghost var cur := MatchState(levels, order, event, fills, now);
      BestIsBest(levels, against, BestOf(cur));
      var p :| IsBest(levels, if buying then Sell else Buy, p);
      BestIsBest(levels, against, p);
      if order.orderType == Market || (if buying then order.price.ticks >= p else order.price.ticks <= p) {
        assert Continues(cur);
        StepShrinks(cur);
        StepResting(cur, against);
        if levels[p] == [] {
          SumSizesRemove(levels, p);
          levels := levels - {p};
        } else {
          var fillEvent, headFilled;
          levels, order, event, fillEvent, headFilled := TradeHead(levels, p, order, event, fills, now);
          fills := fills + [fillEvent];
          if headFilled {
            removed := removed + 1;
          }
        }
        assert MatchState(levels, order, event, fills, now) == Step(cur);
        RunStep(cur, MatchState(levels, order, event, fills, now));
      } else {
        break;
      }
    }
  }

  /** `matching::OrderBook`. */
  class OrderBook {
    var bids: Levels
    var asks: Levels
    var orderCount: nat
    var nextOrderId: U64
    var pendingEvents: seq<OrderEvent>

    ghost function State(): BookState
      reads this
    {
      BookState(bids, asks, orderCount, nextOrderId, pendingEvents)
    }

    ghost predicate Valid()
      reads this
    {
      WellFormed(State())
    }

    /** An empty book whose first order gets id 1. */
    constructor ()
      ensures Valid() && State() == BookState(map[], map[], 0, 1, [])
    {
      bids := map[];
      asks := map[];
      orderCount := 0;
      nextOrderId := 1;
      pendingEvents := [];
    }

    /** `add_order`. */
    method AddOrder(price: Price, qty: Quantity, side: Side, t: OrderType, now: U64) returns (result: Result<OrderEvent>)
      requires Valid()
      modifies this
      ensures Valid()
      ensures (State(), result) == Submit(old(State()), price, qty, side, t, now)
    {
      ghost var s0 := State();
      MatchKeepsOrder(s0, price, qty, side, t, now);
      ghost var r := MatchOf(s0, price, qty, side, t, now);
      var order := MeOrder(OrderId(nextOrderId), price, qty, Quantity(0), side, t, Timestamp(now));
      nextOrderId := Add64(nextOrderId, 1);
      var event := NewEvent(order);
      order, event := Match(order, event, now);
      assert order == r.order && order.price == price && order.side == side;
      if order.filled.value < order.quantity.value && t == Limit {
        if side == Buy {
          bids := Append(bids, order.price.ticks, order);
        } else {
          asks := Append(asks, order.price.ticks, order);
        }
        orderCount := orderCount + 1;
      }
      result := Ok(event);
      ghost var sub := Submit(s0, price, qty, side, t, now);
      assert bids == sub.0.bids && asks == sub.0.asks && orderCount == sub.0.orderCount;
      assert State() == sub.0;
      AddOrderKeeps(s0, price, qty, side, t, now);
    }

    /**
     * `match_buy_order` (against the asks) and `match_sell_order` (against
     * the bids): the loop of `Run` on the other side's levels, then the New
     * event's remainder.
     */
    method Match(order0: MeOrder, event0: OrderEvent, now: U64) returns (order: MeOrder, event: OrderEvent)
      requires Valid()
      modifies this
      ensures Valid()
      ensures Open(SideOf(old(State()), Opposite(order0.side)))
      ensures var r := Run(MatchState(SideOf(old(State()), Opposite(order0.side)), order0, event0, [], now));
        order == r.order &&
        event == r.event.(fillInfo := r.event.fillInfo.(remainingQuantity := Quantity(Rem(r.order)))) &&
        SideOf(State(), Opposite(order0.side)) == r.levels &&
        SideOf(State(), order0.side) == SideOf(old(State()), order0.side) &&
        pendingEvents == old(pendingEvents) + r.fills &&
        nextOrderId == old(nextOrderId) &&
        orderCount == old(orderCount) - (SumSizes(SideOf(old(State()), Opposite(order0.side))) - SumSizes(r.levels))
    {
      var levels := if order0.side == Buy then asks else bids;
      var fills, removed;
      levels, order, event, fills, removed := MatchSide(levels, order0, event0, now);
      pendingEvents := pendingEvents + fills;
      orderCount := orderCount - removed;
      event := event.(fillInfo := event.fillInfo.(remainingQuantity := Quantity(Sub64(order.quantity.value, order.filled.value))));
      if order0.side == Buy {
        asks := levels;
      } else {
        bids := levels;
      }
    }

    /** `get_best_bid`: the highest bid price, nothing when there are no bids. */
    method GetBestBid() returns (r: Option<Price>)
      ensures r.None? <==> bids == map[]
      ensures r.Some? ==> r.value.ticks in bids && forall q :: q in bids ==> q <= r.value.ticks
    {
      if bids == map[] {
        return None;
      }
      ghost var w := MaxPrice(bids.Keys);
      var p :| p in bids && forall q :: q in bids ==> q <= p;
      r := Some(Price(p));
    }

    /** `get_best_ask`: the lowest ask price, nothing when there are no asks. */
    method GetBestAsk() returns (r: Option<Price>)
      ensures r.None? <==> asks == map[]
      ensures r.Some? ==> r.value.ticks in asks && forall q :: q in asks ==> r.value.ticks <= q
    {
      if asks == map[] {
        return None;
      }
      ghost var w := MinPrice(asks.Keys);
      var p :| p in asks && forall q :: q in asks ==> p <= q;
      r := Some(Price(p));
    }

    /** `get_market_depth`: the bid rows, then the ask rows, each at most `maxLevels`. */
    method GetMarketDepth(maxLevels: nat) returns (depth: MarketDepth)
      ensures fresh(depth)
      ensures depth.bids == SideDepth(bids, Buy, maxLevels) && depth.asks == SideDepth(asks, Sell, maxLevels)
    {
      depth := new MarketDepth();
      AddBids(depth, bids, maxLevels);
      AddAsks(depth, asks, maxLevels);
    }

    /** `order_count`: the number of resting orders. */
    function OrderCount(): (n: nat)
      reads this
      requires Valid()
      ensures n == SumSizes(bids) + SumSizes(asks)
    {
      orderCount
    }

    function BidLevels(): nat
      reads this
    {
      |bids.Keys|
    }

    function AskLevels(): nat
      reads this
    {
      |asks.Keys|
    }

    /** `take_events`: hand over the pending Fill events and leave none. */
    method TakeEvents() returns (events: seq<OrderEvent>)
      requires Valid()
      modifies this
      ensures Valid()
      ensures events == old(pendingEvents) && pendingEvents == []
      ensures bids == old(bids) && asks == old(asks) && orderCount == old(orderCount) && nextOrderId == old(nextOrderId)
    {
      events := pendingEvents;
      pendingEvents := [];
    }
  }
}
