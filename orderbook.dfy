// The order book facade (namespace `orderbook`, src/orderbook/orderbook.hpp
// and the `MarketDepth` snapshot of src/orderbook/storage/storage_policy.hpp).
//
// `OrderBook` owns an intrusive storage, a matching engine and the order id
// counter. Its methods work in place on those objects; what each call does
// to the whole book is stated by the functions on `BookState` below
// (`Submit` for `add_order`, `Batch` for `add_orders_batch`), and the lemmas
// after them state what those functions promise.

module Book {
  import opened Common
  import opened Orders
  import opened Storage
  import opened Intrusive
  import opened Matching

  // ---------------------------------------------------------------------
  // The L2 snapshot

  /** `MarketDepth`: bid rows (best first) and ask rows (best first). */
  datatype MarketDepth = MarketDepth(bids: seq<DepthEntry>, asks: seq<DepthEntry>)

  /** `MarketDepth::best_bid_price`: the first bid row's price. */
  function DepthBestBid(d: MarketDepth): Option<int> {
    if d.bids == [] then None else Some(d.bids[0].price)
  }

  /** `MarketDepth::best_ask_price`: the first ask row's price. */
  function DepthBestAsk(d: MarketDepth): Option<int> {
    if d.asks == [] then None else Some(d.asks[0].price)
  }

  /** `MarketDepth::spread`: ask minus bid, when both exist. */
  function DepthSpread(d: MarketDepth): Option<int> {
    match (DepthBestBid(d), DepthBestAsk(d))
    case (Some(bid), Some(ask)) => Some(ask - bid)
    case _ => None
  }

  /** `MarketDepth::mid_price`: the average of bid and ask, when both exist. */
  function DepthMid(d: MarketDepth): Option<real> {
    match (DepthBestBid(d), DepthBestAsk(d))
    case (Some(bid), Some(ask)) => Some((bid + ask) as real / 2.0)
    case _ => None
  }

  // ---------------------------------------------------------------------
  // Prices of the book

  /** Every level of both sides holds orders of that side at that price. */
  ghost predicate Formed(b: BookView) {
    LevelsFormed(b.bids, Buy) && LevelsFormed(b.asks, Sell)
  }

  /** Every bid is strictly below every ask. */
  ghost predicate Uncrossed(b: BookView) {
    forall p, q :: p in b.bids && q in b.asks ==> p < q
  }

  /** `get_best_bid_price`: the highest bid level. */
  ghost function BestBidPrice(b: BookView): Option<int> {
    if b.bids == map[] then None else Some(BestPrice(b.bids, Buy))
  }

  /** `get_best_ask_price`: the lowest ask level. */
  ghost function BestAskPrice(b: BookView): Option<int> {
    if b.asks == map[] then None else Some(BestPrice(b.asks, Sell))
  }

  /** `get_spread`: best ask minus best bid, when both sides have orders. */
  ghost function Spread(b: BookView): Option<int> {
    match (BestBidPrice(b), BestAskPrice(b))
    case (Some(bid), Some(ask)) => Some(ask - bid)
    case _ => None
  }

  /** `get_mid_price`: the average of best bid and best ask, when both sides have orders. */
  ghost function Mid(b: BookView): Option<real> {
    match (BestBidPrice(b), BestAskPrice(b))
    case (Some(bid), Some(ask)) => Some((bid + ask) as real / 2.0)
    case _ => None
  }

  /**
   * The best prices are the extreme levels: no bid above the best bid, no
   * ask below the best ask; on an uncrossed book the spread is positive and
   * the mid price lies strictly between the two.
   */
  lemma BestPricesMeaning(b: BookView)
    ensures BestBidPrice(b).Some? ==> BestBidPrice(b).value in b.bids && forall q :: q in b.bids ==> q <= BestBidPrice(b).value
    ensures BestAskPrice(b).Some? ==> BestAskPrice(b).value in b.asks && forall q :: q in b.asks ==> BestAskPrice(b).value <= q
    ensures Spread(b).None? <==> b.bids == map[] || b.asks == map[]
    ensures Mid(b).None? <==> Spread(b).None?
    ensures Uncrossed(b) && Spread(b).Some? ==>
      Spread(b).value > 0 &&
      BestBidPrice(b).value as real < Mid(b).value < BestAskPrice(b).value as real
  {
    if b.bids != map[] {
      BestPriceRanks(b.bids, Buy);
    }
    if b.asks != map[] {
      BestPriceRanks(b.asks, Sell);
    }
  }

  // ---------------------------------------------------------------------
  // get_market_depth

  /**
   * The split `get_market_depth` performs on the rows of `get_depth`, one row
   * at a time: a row is a bid while fewer than `levels` bids were taken and
   * its price is below the best ask (or there is no ask); otherwise an ask.
   */
  function SplitAsWritten(rows: seq<DepthEntry>, levels: nat, bestAsk: Option<int>): MarketDepth
    decreases |rows|
  {
    if rows == [] then MarketDepth([], [])
    else
      var d := SplitAsWritten(rows[..|rows| - 1], levels, bestAsk);
      var e := rows[|rows| - 1];
      if |d.bids| < levels && (bestAsk.None? || e.price < bestAsk.value) then d.(bids := d.bids + [e])
      else d.(asks := d.asks + [e])
  }

  /** The intended snapshot: the first `levels` bid levels and the first `levels` ask levels. */
  ghost function CorrectDepth(b: BookView, levels: nat): MarketDepth {
    MarketDepth(TopLevels(b.bids, levels, Buy), TopLevels(b.asks, levels, Sell))
  }

  /** Rows that all go to the bids while room remains stay bids. */
  lemma {:induction false} SplitBids(rows: seq<DepthEntry>, levels: nat, bestAsk: Option<int>)
    requires |rows| <= levels
    requires forall i :: 0 <= i < |rows| ==> bestAsk.None? || rows[i].price < bestAsk.value
    ensures SplitAsWritten(rows, levels, bestAsk) == MarketDepth(rows, [])
    decreases |rows|
  {
    if rows != [] {
      SplitBids(rows[..|rows| - 1], levels, bestAsk);
      assert rows[..|rows| - 1] + [rows[|rows| - 1]] == rows;
    }
  }

  /** After the bids, rows that are full-up or not below the best ask all go to the asks. */
  lemma {:induction false} SplitAsks(bids: seq<DepthEntry>, asks: seq<DepthEntry>, levels: nat, bestAsk: Option<int>)
    requires SplitAsWritten(bids, levels, bestAsk) == MarketDepth(bids, [])
    requires |bids| < levels && asks != [] ==> bestAsk.Some? && forall i :: 0 <= i < |asks| ==> asks[i].price >= bestAsk.value
    ensures SplitAsWritten(bids + asks, levels, bestAsk) == MarketDepth(bids, asks)
    decreases |asks|
  {
    if asks == [] {
      assert bids + asks == bids;
    } else {
      var init := asks[..|asks| - 1];
      assert forall i :: 0 <= i < |init| ==> init[i] == asks[i];
      SplitAsks(bids, init, levels, bestAsk);
      assert init + [asks[|asks| - 1]] == asks;
      SplitOneAsk(bids, init, asks[|asks| - 1], levels, bestAsk);
    }
  }

  /** The split of one more row: the row joins the bids or the asks of the split so far. */
  lemma SplitNextRow(rows: seq<DepthEntry>, i: nat, levels: nat, bestAsk: Option<int>)
    requires i < |rows|
    ensures var d := SplitAsWritten(rows[..i], levels, bestAsk);
      SplitAsWritten(rows[..i + 1], levels, bestAsk) ==
        if |d.bids| < levels && (bestAsk.None? || rows[i].price < bestAsk.value) then d.(bids := d.bids + [rows[i]])
        else d.(asks := d.asks + [rows[i]])
  {
    assert rows[..i + 1][..i] == rows[..i];
  }

  /** `SplitAsks`' step: one more row that is full-up or not below the best ask goes to the asks. */
  lemma SplitOneAsk(bids: seq<DepthEntry>, init: seq<DepthEntry>, e: DepthEntry, levels: nat, bestAsk: Option<int>)
    requires SplitAsWritten(bids + init, levels, bestAsk) == MarketDepth(bids, init)
    requires |bids| < levels ==> bestAsk.Some? && e.price >= bestAsk.value
    ensures SplitAsWritten(bids + (init + [e]), levels, bestAsk) == MarketDepth(bids, init + [e])
  {
    var rows := bids + (init + [e]);
    assert rows[..|rows| - 1] == bids + init && rows[|rows| - 1] == e;
  }

  /** On an uncrossed book the split as written is the intended snapshot. */
  lemma SplitUncrossed(b: BookView, levels: nat)
    requires Uncrossed(b)
    ensures SplitAsWritten(TopLevels(b.bids, levels, Buy) + TopLevels(b.asks, levels, Sell), levels, BestAskPrice(b)) ==
            CorrectDepth(b, levels)
  {
    var bids := TopLevels(b.bids, levels, Buy);
    var asks := TopLevels(b.asks, levels, Sell);
    TopLevelsShape(b.bids, levels, Buy);
    TopLevelsShape(b.asks, levels, Sell);
    BestPricesMeaning(b);
    assert forall i :: 0 <= i < |bids| ==> bids[i].price in b.bids;
    SplitBids(bids, levels, BestAskPrice(b));
    assert forall i :: 0 <= i < |asks| ==> asks[i].price in b.asks;
    SplitAsks(bids, asks, levels, BestAskPrice(b));
  }

  /** A bid order at 105 against an ask order at 100: a crossed book. */
  function CrossedExample(): BookView {
    BookView(map[105 := [NewOrder(2, 105, 1, Buy, Limit, 0)]], map[100 := [NewOrder(1, 100, 1, Sell, Limit, 0)]])
  }

  /**
   * `add_passive_order` does not match, so two passive orders on a fresh book
   * (ids 1 and 2) produce the crossed example: an ask at 100, then a bid at 105.
   */
  lemma PassiveReachesCrossed()
    ensures Uncrossed(BookView(map[], map[])) && !HasId(BookView(map[], map[]), 1)
    ensures var one := AddToView(BookView(map[], map[]), NewOrder(1, 100, 1, Sell, Limit, 0));
      Uncrossed(one) && !HasId(one, 2)
    ensures AddToView(AddToView(BookView(map[], map[]), NewOrder(1, 100, 1, Sell, Limit, 0)),
                      NewOrder(2, 105, 1, Buy, Limit, 0)) == CrossedExample()
    ensures !Uncrossed(CrossedExample())
  {
    var one := AddToView(BookView(map[], map[]), NewOrder(1, 100, 1, Sell, Limit, 0));
    forall side: Side, p: int, k: nat | p in SideOf(one, side) && k < |SideOf(one, side)[p]|
      ensures SideOf(one, side)[p][k].id != 2
    {
      assert side == Sell && p == 100 && k == 0;
    }
    var ask, bid := NewOrder(1, 100, 1, Sell, Limit, 0), NewOrder(2, 105, 1, Buy, Limit, 0);
    assert [] + [ask] == [ask] && [] + [bid] == [bid];
    assert one == BookView(map[], map[100 := [ask]]);
    assert 105 in CrossedExample().bids && 100 in CrossedExample().asks;
  }

  /** The single level of a one-level side is its whole depth. */
  lemma OneLevel(p: int, vs: seq<Order>, side: Side, n: nat)
    requires n > 0
    ensures TopLevels(map[p := vs], n, side) == [DepthOf(p, vs)]
  {
    var m := map[p := vs];
    BestPriceUnique(m, side, p);
    assert (m - {p}).Keys == {};
  }

  /**
   * On the crossed example the split as written files the bid level at 105
   * under the asks and reports no bids; the intended snapshot keeps it a bid.
   */
  lemma CrossedDepthMisfiled()
    ensures var b := CrossedExample();
      var d := SplitAsWritten(TopLevels(b.bids, 10, Buy) + TopLevels(b.asks, 10, Sell), 10, BestAskPrice(b));
      !Uncrossed(b) && d.bids == [] && d.asks == [DepthEntry(105, 1, 1), DepthEntry(100, 1, 1)] &&
      105 !in b.asks && CorrectDepth(b, 10) == MarketDepth([DepthEntry(105, 1, 1)], [DepthEntry(100, 1, 1)])
  {
    var b := CrossedExample();
    CrossedBidsDepth();
    CrossedAsksDepth();
    var rows := [DepthEntry(105, 1, 1), DepthEntry(100, 1, 1)];
    assert TopLevels(b.bids, 10, Buy) + TopLevels(b.asks, 10, Sell) == rows;
    CrossedRowsSplit(rows);
  }

  /** The crossed example's one bid level, at 105. */
  lemma CrossedBidsDepth()
    ensures TopLevels(CrossedExample().bids, 10, Buy) == [DepthEntry(105, 1, 1)]
  {
    var b := CrossedExample();
    OneLevel(105, b.bids[105], Buy, 10);
    assert LevelQuantity(b.bids[105]) == 1;
  }

  /** The crossed example's one ask level, at 100, which is also its best ask. */
  lemma CrossedAsksDepth()
    ensures TopLevels(CrossedExample().asks, 10, Sell) == [DepthEntry(100, 1, 1)]
    ensures BestAskPrice(CrossedExample()) == Some(100)
  {
    var b := CrossedExample();
    OneLevel(100, b.asks[100], Sell, 10);
    BestPriceUnique(b.asks, Sell, 100);
    assert LevelQuantity(b.asks[100]) == 1;
  }

  /** With the best ask at 100, the split as written sends the row at 105 and the row at 100 to the asks. */
  lemma CrossedRowsSplit(rows: seq<DepthEntry>)
    requires rows == [DepthEntry(105, 1, 1), DepthEntry(100, 1, 1)]
    ensures SplitAsWritten(rows, 10, Some(100)) == MarketDepth([], rows)
  {
    assert rows[..1] == [DepthEntry(105, 1, 1)] && rows[..1][..0] == [];
    assert SplitAsWritten(rows[..1], 10, Some(100)) == MarketDepth([], [DepthEntry(105, 1, 1)]);
  }

  /** The intended snapshot has bid levels only among its bids, ask levels only among its asks, and the book's best prices. */
  lemma CorrectDepthSides(b: BookView, levels: nat)
    ensures var d := CorrectDepth(b, levels);
      (forall i :: 0 <= i < |d.bids| ==> d.bids[i].price in b.bids) &&
      (forall i :: 0 <= i < |d.asks| ==> d.asks[i].price in b.asks) &&
      |d.bids| == Min(levels, |b.bids.Keys|) && |d.asks| == Min(levels, |b.asks.Keys|)
    ensures levels > 0 ==>
      var d := CorrectDepth(b, levels);
      DepthBestBid(d) == BestBidPrice(b) && DepthBestAsk(d) == BestAskPrice(b) &&
      DepthSpread(d) == Spread(b) && DepthMid(d) == Mid(b)
  {
    TopLevelsShape(b.bids, levels, Buy);
    TopLevelsShape(b.asks, levels, Sell);
    if b.bids == map[] { assert |b.bids.Keys| == 0; }
    if b.asks == map[] { assert |b.asks.Keys| == 0; }
  }

  // ---------------------------------------------------------------------
  // add_order on the whole book

  /** The observable state of an `OrderBook`: the book, the next order id and the engine's counters. */
  datatype BookState = BookState(view: BookView, nextOrderId: U64, stats: Stats)

  datatype Outcome = Outcome(state: BookState, result: MatchResult)

  datatype BatchOutcome = BatchOutcome(state: BookState, results: seq<MatchResult>)

  /** The order `add_order` works with: an id of 0 is replaced by the next generated id. */
  function AssignId(o: Order, next: U64): Order {
    if o.id == 0 then o.(id := next) else o
  }

  /** The match of `o` against the opposite side of `s`. */
  ghost function MatchOf(s: BookState, o: Order, now: U64): MatchState {
    Run(Start(SideOf(s.view, Opposite(o.side)), o, s.stats, now))
  }

  /**
   * `add_order(Order)`: assign an id when it is 0, match against the opposite
   * side, then rest the settled remainder at the tail of its level when the
   * order is a Limit order that was not fully filled. The storage refuses an
   * id that is already resting, and that refusal is ignored.
   */
  ghost function Submit(s: BookState, order: Order, now: U64): Outcome {
    var o := AssignId(order, s.nextOrderId);
    var r := MatchOf(s, o, now);
    var result := r.result.(fullyFilled := r.result.remainingQty == 0);
    var matched := WithSide(s.view, Opposite(o.side), r.levels);
    var rests := !result.fullyFilled && o.orderType == Limit && !HasId(matched, o.id);
    Outcome(
      BookState(if rests then AddToView(matched, Settle(o, r.result.filledQty)) else matched,
                if order.id == 0 then Add64(s.nextOrderId, 1) else s.nextOrderId,
                r.stats),
      result)
  }

  /** A remainder that stopped matching lies strictly beyond every level left on the other side. */
  lemma RestingBeyond(m: map<int, seq<Order>>, o: Order)
    requires LevelsFormed(m, Opposite(o.side))
    requires !HasBest(m, Opposite(o.side)) || !CanMatchWith(o, BestOf(m, Opposite(o.side)))
    ensures forall q :: q in m ==> if o.side == Buy then o.price < q else q < o.price
  {
    var opp := Opposite(o.side);
    if m.Keys != {} {
      BestPriceRanks(m, opp);
      var b := BestPrice(m, opp);
      assert m[b] != [] && m[b][0].price == b && m[b][0].side == opp;
    }
  }

  /** Appending an order at its own price and side keeps a side well formed. */
  lemma EnqueueFormed(m: map<int, seq<Order>>, o: Order)
    requires LevelsFormed(m, o.side)
    ensures LevelsFormed(Enqueue(m, o), o.side)
  {
    var r: map<int, seq<Order>> := Enqueue(m, o);
    forall p | p in r ensures r[p] != [] && forall k :: 0 <= k < |r[p]| ==> r[p][k].price == p && r[p][k].side == o.side {
      if p == o.price {
        var old_ := if o.price in m then m[o.price] else [];
        assert r[p] == old_ + [o];
        forall k | 0 <= k < |r[p]| ensures r[p][k].price == p && r[p][k].side == o.side {
          if k < |old_| { assert r[p][k] == m[p][k]; }
        }
      }
    }
  }

  /**
   * The result of one `add_order`: the fill and the remainder add up to the
   * quantity, the fill is the traded quantity, and the order counts as fully
   * filled exactly when nothing remains.
   */
  lemma SubmitBalance(s: BookState, order: Order, now: U64)
    ensures var out := Submit(s, order, now);
      out.result.filledQty + out.result.remainingQty == order.quantity &&
      out.result.filledQty == SumQty(out.result.trades) &&
      (out.result.fullyFilled <==> out.result.remainingQty == 0)
  {
    var o := AssignId(order, s.nextOrderId);
    MatchOutcome(SideOf(s.view, Opposite(o.side)), o, s.stats, now);
  }

  /**
   * A remainder is left only when matching had to stop: a Market remainder
   * means the other side is empty, a Limit remainder means no level left on
   * the other side reaches its price. A Market order never rests.
   */
  lemma SubmitRemainder(s: BookState, order: Order, now: U64)
    requires Formed(s.view)
    ensures var out := Submit(s, order, now);
      var o := AssignId(order, s.nextOrderId);
      var other := SideOf(out.state.view, Opposite(o.side));
      (out.result.remainingQty > 0 && o.orderType == Market ==> other == map[]) &&
      (out.result.remainingQty > 0 && o.orderType == Limit ==>
        forall q :: q in other ==> if o.side == Buy then o.price < q else q < o.price) &&
      (o.orderType == Market ==> SideOf(out.state.view, o.side) == SideOf(s.view, o.side))
  {
    var o := AssignId(order, s.nextOrderId);
    var opp := Opposite(o.side);
    var st := Start(SideOf(s.view, opp), o, s.stats, now);
    var r := Run(st);
    RunsToRun(st);
    RunFormed(st, r);
    MatchOutcome(SideOf(s.view, opp), o, s.stats, now);
    if r.result.remainingQty > 0 {
      RestingBeyond(r.levels, o);
    }
  }

  /** One `add_order` rests at most one order and takes out at most one per trade. */
  lemma SubmitCount(s: BookState, order: Order, now: U64)
    ensures var out := Submit(s, order, now);
      Count(out.state.view) <= Count(s.view) + 1 &&
      Count(s.view) <= Count(out.state.view) + |out.result.trades|
  {
    var o := AssignId(order, s.nextOrderId);
    var opp := Opposite(o.side);
    var st := Start(SideOf(s.view, opp), o, s.stats, now);
    var r := Run(st);
    RunsToRun(st);
    RunLevels(st, r);
    RunExtends(st, r);
    var matched := WithSide(s.view, opp, r.levels);
    assert Count(matched) == SumSizes(r.levels) + SumSizes(SideOf(s.view, o.side));
    assert Count(s.view) == SumSizes(st.levels) + SumSizes(SideOf(s.view, o.side));
    CountAdd(matched, Settle(o, r.result.filledQty));
  }

  /** `add_order` never crosses the book: an uncrossed, well-formed book stays so. */
  lemma SubmitKeepsUncrossed(s: BookState, order: Order, now: U64)
    requires Formed(s.view) && Uncrossed(s.view)
    ensures Formed(Submit(s, order, now).state.view) && Uncrossed(Submit(s, order, now).state.view)
  {
    var o := AssignId(order, s.nextOrderId);
    var opp := Opposite(o.side);
    var st := Start(SideOf(s.view, opp), o, s.stats, now);
    var r := Run(st);
    RunsToRun(st);
    RunFormed(st, r);
    MatchOutcome(SideOf(s.view, opp), o, s.stats, now);
    var matched := WithSide(s.view, opp, r.levels);
    assert Formed(matched) && Uncrossed(matched);
    var settled := Settle(o, r.result.filledQty);
    var after := Submit(s, order, now).state.view;
    if after != matched {
      assert after == AddToView(matched, settled);
      assert r.result.remainingQty > 0 && o.orderType == Limit;
      RestingBeyond(r.levels, o);
      EnqueueFormed(SideOf(matched, o.side), settled);
    }
  }

  /** `add_orders_batch`: `add_order` on each order in turn, one result per order. */
  ghost function Batch(s: BookState, orders: seq<Order>, now: U64): (out: BatchOutcome)
    ensures |out.results| == |orders|
    decreases |orders|
  {
    if orders == [] then BatchOutcome(s, [])
    else
      var prev := Batch(s, orders[..|orders| - 1], now);
      var last := Submit(prev.state, orders[|orders| - 1], now);
      BatchOutcome(last.state, prev.results + [last.result])
  }

  /** A batch of `xs` then `ys` is the batch of `xs` followed by the batch of `ys` from where it left the book. */
  lemma {:induction false} BatchConcat(s: BookState, xs: seq<Order>, ys: seq<Order>, now: U64)
    ensures var a := Batch(s, xs, now);
      var b := Batch(a.state, ys, now);
      Batch(s, xs + ys, now) == BatchOutcome(b.state, a.results + b.results)
    decreases |ys|
  {
    if ys == [] {
      assert xs + ys == xs;
    } else {
      var init := ys[..|ys| - 1];
      BatchConcat(s, xs, init, now);
      assert (xs + ys)[..|xs + ys| - 1] == xs + init;
      assert (xs + ys)[|xs + ys| - 1] == ys[|ys| - 1];
    }
  }

  /** A batch keeps a well-formed, uncrossed book so. */
  lemma {:induction false} BatchKeepsUncrossed(s: BookState, orders: seq<Order>, now: U64)
    requires Formed(s.view) && Uncrossed(s.view)
    ensures Formed(Batch(s, orders, now).state.view) && Uncrossed(Batch(s, orders, now).state.view)
    decreases |orders|
  {
    if orders != [] {
      var prev := Batch(s, orders[..|orders| - 1], now);
      BatchKeepsUncrossed(s, orders[..|orders| - 1], now);
      SubmitKeepsUncrossed(prev.state, orders[|orders| - 1], now);
    }
  }

  /** Two views with the same sides are the same view. */
  lemma SameSides(a: BookView, b: BookView)
    requires SideOf(a, Buy) == SideOf(b, Buy) && SideOf(a, Sell) == SideOf(b, Sell)
    ensures a == b
  {
  }

  /** With no empty level, a book holds no order exactly when it has no level. */
  lemma CountZero(b: BookView)
    requires Formed(b)
    ensures Count(b) == 0 <==> b == BookView(map[], map[])
  {
    if b.bids.Keys != {} {
      SumSizesAtLeast(b.bids, Pick(b.bids.Keys));
    }
    if b.asks.Keys != {} {
      SumSizesAtLeast(b.asks, Pick(b.asks.Keys));
    }
  }

  // ---------------------------------------------------------------------
  // The book

  /** `OrderBook<IntrusiveStorage>`: storage, matcher and the order id counter. */
  class OrderBook {
    const storage: IntrusiveStorage
    const matcher: MatchingEngine
    var nextOrderId: U64

    ghost predicate Valid()
      reads storage, storage.alloc
    {
      storage.Valid()
    }

    ghost function View(): BookView
      reads storage
    {
      storage.View()
    }

    ghost function State(): BookState
      reads this, storage, matcher
    {
      BookState(storage.View(), nextOrderId, matcher.Counters())
    }

    /** An empty book; order ids start at 1. */
    constructor ()
      ensures Valid() && fresh(storage) && fresh(storage.alloc) && fresh(matcher)
      ensures State() == BookState(BookView(map[], map[]), 1, Stats(1, 0, 0))
    {
      storage := new IntrusiveStorage();
      matcher := new MatchingEngine();
      nextOrderId := 1;
    }

    /** `generate_order_id`: hand out the counter and advance it, wrapping at 2^64. */
    method GenerateOrderId() returns (id: U64)
      modifies this
      ensures id == old(nextOrderId) && nextOrderId == Add64(id, 1)
    {
      id := nextOrderId;
      nextOrderId := Add64(nextOrderId, 1);
    }

    /** `add_order(Order)`: the book moves as `Submit` says. */
    method AddOrder(order: Order, now: U64) returns (result: MatchResult)
      requires Valid()
      modifies this, storage, storage.alloc, matcher
      ensures Valid()
      ensures Outcome(State(), result) == Submit(old(State()), order, now)
    {
      var o := order;
      if o.id == 0 {
        var id := GenerateOrderId();
        o := o.(id := id);
      }
      ghost var before := storage.View();
      ghost var stats := matcher.Counters();
      var settled;
      result, settled := matcher.MatchOrder(o, storage, now);
      ghost var r := Run(Start(SideOf(before, Opposite(o.side)), o, stats, now));
      SameSides(storage.View(), WithSide(before, Opposite(o.side), r.levels));
      if !result.fullyFilled && o.orderType == Limit {
        IndexIds(storage.R, o.id);
        var _ := storage.AddOrder(settled);
      }
    }

    /** `add_order(price, quantity, side, type)`: a new order with the next generated id, then `add_order`. */
    method AddOrderAt(price: int, quantity: U64, side: Side, orderType: OrderType, now: U64) returns (result: MatchResult)
      requires Valid()
      modifies this, storage, storage.alloc, matcher
      ensures Valid()
      ensures Outcome(State(), result) ==
        Submit(old(State()).(nextOrderId := Add64(old(nextOrderId), 1)),
               NewOrder(old(nextOrderId), price, quantity, side, orderType, now), now)
    {
      var id := GenerateOrderId();
      result := AddOrder(NewOrder(id, price, quantity, side, orderType, now), now);
    }

    /** `add_passive_order`: rest a new Limit order without matching; refused when its id is already resting. */
    method AddPassiveOrder(price: int, quantity: U64, side: Side, now: U64) returns (ok: bool)
      requires Valid()
      modifies this, storage, storage.alloc
      ensures Valid() && nextOrderId == Add64(old(nextOrderId), 1)
      ensures ok <==> !HasId(old(View()), old(nextOrderId))
      ensures View() == if ok then AddToView(old(View()), NewOrder(old(nextOrderId), price, quantity, side, Limit, now))
                        else old(View())
      ensures ok ==> Count(View()) == Count(old(View())) + 1
    {
      var id := GenerateOrderId();
      IndexIds(storage.R, id);
      ok := storage.AddOrder(NewOrder(id, price, quantity, side, Limit, now));
      CountAdd(old(View()), NewOrder(id, price, quantity, side, Limit, now));
    }

    /** `cancel_order`: mark the order Cancelled and take it out of the book; false for an unknown id. */
    method CancelOrder(id: U64) returns (ok: bool)
      requires Valid()
      modifies storage, storage.alloc
      ensures Valid()
      ensures ok <==> HasId(old(View()), id)
      ensures ok ==> old(id in storage.index) && View() == RemoveFromView(old(View()), old(LocOfId(storage.R, id)))
      ensures ok ==> Count(View()) == Count(old(View())) - 1 && !HasId(View(), id)
      ensures !ok ==> View() == old(View())
    {
      IndexIds(storage.R, id);
      var p := storage.FindOrder(id);
      if p.None? {
        return false;
      }
      ghost var before := storage.View();
      ghost var l := LocOfId(storage.R, id);
      SlotIndexed(storage.R, p.value);
      var o := storage.OrderAt(p.value);
      storage.SetOrder(p.value, o.(status := Cancelled));
      SlotIndexed(storage.R, p.value);
      RemoveAfterUpdate(before, l, o.(status := Cancelled));
      ok := storage.RemoveOrder(id);
      CountRemove(before, l);
      IndexIds(storage.R, id);
    }

    /**
     * `modify_order`: cancel the order and rest a new one with the same id,
     * price, side and type, the new quantity and nothing filled, at the tail
     * of its level (it loses its time priority).
     */
    method ModifyOrder(id: U64, newQuantity: U64, now: U64) returns (ok: bool)
      requires Valid()
      modifies storage, storage.alloc
      ensures Valid()
      ensures ok <==> HasId(old(View()), id)
      ensures ok ==> old(id in storage.index) &&
                     var l := old(LocOfId(storage.R, id));
                     var o := SideOf(old(View()), l.side)[l.price][l.pos];
                     View() == AddToView(RemoveFromView(old(View()), l),
                                         NewOrder(id, o.price, newQuantity, o.side, o.orderType, now))
      ensures ok ==> Count(View()) == Count(old(View()))
      ensures !ok ==> View() == old(View())
    {
      IndexIds(storage.R, id);
      var p := storage.FindOrder(id);
      if p.None? {
        return false;
      }
      IdFacts(storage.R, id);
      SlotIndexed(storage.R, p.value);
      var o := storage.OrderAt(p.value);
      var price, side, orderType := o.price, o.side, o.orderType;
      ghost var removed := RemoveFromView(old(View()), old(LocOfId(storage.R, id)));
      var cancelled := CancelOrder(id);
      ok := cancelled;
      if cancelled {
        IndexIds(storage.R, id);
        ok := storage.AddOrder(NewOrder(id, price, newQuantity, side, orderType, now));
        CountAdd(removed, NewOrder(id, price, newQuantity, side, orderType, now));
      }
    }

    /** `find_order`: the resting order with this id, if any. */
    method FindOrder(id: U64) returns (o: Option<Order>)
      requires Valid()
      ensures o.Some? <==> HasId(View(), id)
      ensures o.Some? ==> id in storage.index && o.value.id == id &&
                          var l := LocOfId(storage.R, id);
                          o.value == SideOf(View(), l.side)[l.price][l.pos]
    {
      IndexIds(storage.R, id);
      var p := storage.FindOrder(id);
      if p.None? {
        return None;
      }
      IdFacts(storage.R, id);
      SlotIndexed(storage.R, p.value);
      o := Some(storage.OrderAt(p.value));
    }

    /** `get_best_bid`: the oldest order at the highest bid price. */
    method GetBestBid() returns (o: Option<Order>)
      requires Valid()
      ensures o.None? <==> View().bids == map[]
      ensures o.Some? ==> o.value.price in View().bids && |View().bids[o.value.price]| > 0 &&
                          View().bids[o.value.price][0] == o.value &&
                          o.value.side == Buy && forall q :: q in View().bids ==> q <= o.value.price
    {
      var p := storage.GetBestBid();
      if p.None? {
        return None;
      }
      o := Some(storage.OrderAt(p.value));
      ViewFormed(storage.R);
      BestPriceRanks(View().bids, Buy);
    }

    /** `get_best_ask`: the oldest order at the lowest ask price. */
    method GetBestAsk() returns (o: Option<Order>)
      requires Valid()
      ensures o.None? <==> View().asks == map[]
      ensures o.Some? ==> o.value.price in View().asks && |View().asks[o.value.price]| > 0 &&
                          View().asks[o.value.price][0] == o.value &&
                          o.value.side == Sell && forall q :: q in View().asks ==> o.value.price <= q
    {
      var p := storage.GetBestAsk();
      if p.None? {
        return None;
      }
      o := Some(storage.OrderAt(p.value));
      ViewFormed(storage.R);
      BestPriceRanks(View().asks, Sell);
    }

    /** `get_best_bid_price`. */
    method GetBestBidPrice() returns (p: Option<int>)
      requires Valid()
      ensures p == BestBidPrice(View())
    {
      var o := GetBestBid();
      if o.None? {
        return None;
      }
      BestPriceUnique(View().bids, Buy, o.value.price);
      p := Some(o.value.price);
    }

    /** `get_best_ask_price`. */
    method GetBestAskPrice() returns (p: Option<int>)
      requires Valid()
      ensures p == BestAskPrice(View())
    {
      var o := GetBestAsk();
      if o.None? {
        return None;
      }
      BestPriceUnique(View().asks, Sell, o.value.price);
      p := Some(o.value.price);
    }

    /** `get_spread`. */
    method GetSpread() returns (s: Option<int>)
      requires Valid()
      ensures s == Spread(View())
    {
      var bid := GetBestBidPrice();
      var ask := GetBestAskPrice();
      if bid.None? || ask.None? {
        return None;
      }
      s := Some(ask.value - bid.value);
    }

    /** `get_mid_price`, on exact rationals. */
    method GetMidPrice() returns (m: Option<real>)
      requires Valid()
      ensures m == Mid(View())
    {
      var bid := GetBestBidPrice();
      var ask := GetBestAskPrice();
      if bid.None? || ask.None? {
        return None;
      }
      m := Some((bid.value + ask.value) as real / 2.0);
    }

    /** `get_market_depth` as written: split the rows of `get_depth` by comparing prices with the best ask. */
    method GetMarketDepthAsWritten(levels: nat) returns (d: MarketDepth)
      requires Valid()
      ensures d == SplitAsWritten(TopLevels(View().bids, levels, Buy) + TopLevels(View().asks, levels, Sell),
                                  levels, BestAskPrice(View()))
    {
      var rows := storage.GetDepth(levels);
      ghost var best := BestAskPrice(View());
      var bids: seq<DepthEntry> := [];
      var asks: seq<DepthEntry> := [];
      var bidCount := 0;
      for i := 0 to |rows|
        invariant bidCount == |bids|
        invariant MarketDepth(bids, asks) == SplitAsWritten(rows[..i], levels, best)
      {
        var e := rows[i];
        var isBid := false;
        if bidCount < levels && |bids| < levels {
          var bestAsk := GetBestAskPrice();
          isBid := bestAsk.None? || e.price < bestAsk.value;
        }
        SplitNextRow(rows, i, levels, best);
        if isBid {
          bids := bids + [e];
          bidCount := bidCount + 1;
        } else {
          asks := asks + [e];
        }
      }
      assert rows[..|rows|] == rows;
      d := MarketDepth(bids, asks);
    }

    /** `get_market_depth` split by the number of bid levels `get_depth` returned. */
    method GetMarketDepth(levels: nat) returns (d: MarketDepth)
      requires Valid()
      ensures d == CorrectDepth(View(), levels)
    {
      var rows := storage.GetDepth(levels);
      LevelsEmpty(storage.R, Buy);
      TopLevelsShape(View().bids, levels, Buy);
      assert |storage.buyLevels| == |storage.buyLevels.Keys| == |View().bids.Keys|;
      var nb := Min(levels, |storage.buyLevels|);
      d := MarketDepth(rows[..nb], rows[nb..]);
    }

    /** `add_orders_batch`: `add_order` on each order in turn. */
    method AddOrdersBatch(orders: seq<Order>, now: U64) returns (results: seq<MatchResult>)
      requires Valid()
      modifies this, storage, storage.alloc, matcher
      ensures Valid()
      ensures BatchOutcome(State(), results) == Batch(old(State()), orders, now)
    {
      results := [];
      for i := 0 to |orders|
        invariant Valid()
        invariant BatchOutcome(State(), results) == Batch(old(State()), orders[..i], now)
      {
        var r := AddOrder(orders[i], now);
        assert orders[..i + 1][..i] == orders[..i];
        results := results + [r];
      }
      assert orders[..|orders|] == orders;
    }

    /** `clear`: no order rests afterwards; the id counter and the statistics stay. */
    method Clear()
      requires Valid()
      modifies storage, storage.alloc
      ensures Valid() && View() == BookView(map[], map[])
    {
      storage.Clear();
    }

    /** `size`: the number of resting orders. */
    function Size(): (n: nat)
      reads storage, storage.alloc
      requires Valid()
      ensures n == Count(View())
    {
      storage.Size()
    }

    /** `empty`: the book has no level on either side. */
    function Empty(): (e: bool)
      reads storage, storage.alloc
      requires Valid()
      ensures e <==> View() == BookView(map[], map[])
    {
      ViewFormed(storage.R);
      CountZero(View());
      storage.Size() == 0
    }

    /** `total_trades`. */
    function TotalTrades(): (n: U64)
      reads matcher
      ensures n == matcher.Counters().tradeCount
    {
      matcher.TotalTrades()
    }

    /** `total_volume`. */
    function TotalVolume(): (n: U64)
      reads matcher
      ensures n == matcher.Counters().totalVolume
    {
      matcher.TotalVolume()
    }

    /** `reset_statistics`: zero the trade count and volume; trade ids keep running. */
    method ResetStatistics()
      modifies matcher
      ensures State() == old(State()).(stats := Stats(old(matcher.nextTradeId), 0, 0))
    {
      matcher.ResetStatistics();
    }
  }
}
