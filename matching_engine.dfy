// The matcher of the intrusive order book
// (src/orderbook/core/matching_engine.hpp): price-time priority matching of
// one incoming order against the opposite side of the storage.
//
// `Run` replays the matching loop on the storage's view (module Storage);
// the engine's methods work on the storage in place and are proved to end in
// the state `Run` describes. The lemmas after `Run` state what the loop
// promises: conservation of quantity, where and why it stops, trade ids,
// counterparties, limit prices and what happens to the book.

module Matching {
  import opened Common
  import opened Orders
  import opened Storage
  import opened Intrusive

  /** `MatchResult`: the trades of one match and the incoming order's fill. */
  datatype MatchResult = MatchResult(trades: seq<Trade>, fullyFilled: bool, remainingQty: U64, filledQty: U64)

  /** The engine's counters: the next trade id, the number of trades and the traded volume. */
  datatype Stats = Stats(nextTradeId: U64, tradeCount: U64, totalVolume: U64)

  /**
   * A match in progress: the price levels of the side the incoming order
   * trades against, the incoming order, the result so far, the counters and
   * the clock. Matching never touches the incoming order's own side.
   */
  datatype MatchState = MatchState(
    levels: map<int, seq<Order>>, incoming: Order, result: MatchResult, stats: Stats, now: U64)

  function HasTrades(r: MatchResult): (b: bool)
    ensures b <==> r.trades != []
  {
    |r.trades| > 0
  }

  function NumTrades(r: MatchResult): (n: nat)
    ensures n == 0 <==> !HasTrades(r)
  {
    |r.trades|
  }

  // ---------------------------------------------------------------------
  // The matching loop on the view

  /** The side the incoming order trades against. */
  function Against(st: MatchState): Side {
    Opposite(st.incoming.side)
  }

  /** The levels have a best price with an order at its head. */
  ghost predicate HasBest(m: map<int, seq<Order>>, side: Side) {
    m.Keys != {} && |m[BestPrice(m, side)]| > 0
  }

  /** The best resting order: the head of the best level. */
  ghost function BestOf(m: map<int, seq<Order>>, side: Side): Order
    requires HasBest(m, side)
  {
    m[BestPrice(m, side)][0]
  }

  /**
   * The loop goes on while the incoming order has quantity left and the
   * opposite side has an order; a Limit order also needs the prices to cross.
   */
  ghost predicate Continues(st: MatchState) {
    st.result.remainingQty > 0 && HasBest(st.levels, Against(st)) &&
    (st.incoming.orderType == Market || CanMatchWith(st.incoming, BestOf(st.levels, Against(st))))
  }

  /** The quantity of the next trade: the smaller of the two remainders. */
  ghost function TradeQty(st: MatchState): U64
    requires Continues(st)
  {
    Min(st.result.remainingQty, Remaining(BestOf(st.levels, Against(st))))
  }

  /** `execute_trade` against the best opposite order. */
  ghost function Step(st: MatchState): MatchState
    requires Continues(st)
  {
    var best := BestPrice(st.levels, Against(st));
    var resting := BestOf(st.levels, Against(st));
    var q := TradeQty(st);
    var id := st.stats.nextTradeId;
    var trade := if st.incoming.side == Buy then NewTrade(id, st.incoming.id, resting.id, resting.price, q, st.now)
                 else NewTrade(id, resting.id, st.incoming.id, resting.price, q, st.now);
    var resting' := resting.(filled := Add64(resting.filled, q));
    var levels := if IsFullyFilled(resting') then RemoveAt(st.levels, best, 0)
                  else UpdateAt(st.levels, best, 0, resting'.(status := PartiallyFilled));
    MatchState(
      levels, st.incoming,
      st.result.(trades := st.result.trades + [trade], remainingQty := st.result.remainingQty - q,
                 filledQty := Add64(st.result.filledQty, q)),
      Stats(Add64(id, 1), Add64(st.stats.tradeCount, 1), Add64(st.stats.totalVolume, q)),
      st.now)
  }

  /** Filling by the unsigned remainder always lands exactly on the quantity. */
  lemma FillToQuantity(o: Order)
    ensures Add64(o.filled, Remaining(o)) == o.quantity
  {
  }

  lemma SizeRemoveAt(m: map<int, seq<Order>>, p: int, k: nat)
    requires p in m && k < |m[p]|
    ensures SumSizes(RemoveAt(m, p, k)) == SumSizes(m) - 1
  {
    if |m[p]| == 1 {
      SumSizesRemove(m, p);
    } else {
      SumSizesUpdate(m, p, Without(m[p], k));
    }
  }

  lemma SizeUpdateAt(m: map<int, seq<Order>>, p: int, k: nat, o: Order)
    requires p in m && k < |m[p]|
    ensures SumSizes(UpdateAt(m, p, k, o)) == SumSizes(m)
  {
    SumSizesUpdate(m, p, m[p][k := o]);
  }

  /**
   * Every trade uses up the incoming remainder or the resting order (which
   * then leaves the book); a resting order is only partly filled when the
   * incoming order is done. So each step shortens the remainder or the book.
   */
  lemma StepExhausts(st: MatchState)
    requires Continues(st)
    ensures var st' := Step(st);
      st'.result.remainingQty == 0 ||
      st'.levels == RemoveAt(st.levels, BestPrice(st.levels, Against(st)), 0)
    ensures var st' := Step(st);
      st'.result.remainingQty < st.result.remainingQty ||
      (st'.result.remainingQty == st.result.remainingQty && SumSizes(st'.levels) < SumSizes(st.levels))
  {
    var resting := BestOf(st.levels, Against(st));
    var q := TradeQty(st);
    FillToQuantity(resting);
    if q == Remaining(resting) {
      assert IsFullyFilled(resting.(filled := Add64(resting.filled, q)));
      SizeRemoveAt(st.levels, BestPrice(st.levels, Against(st)), 0);
    }
  }

  /** `match_market_order` / `match_limit_order`: step until the loop condition fails. */
  ghost function Run(st: MatchState): MatchState
    decreases st.result.remainingQty, SumSizes(st.levels)
  {
    if Continues(st) then
      StepExhausts(st);
      Run(Step(st))
    else st
  }

  /** `match_order`'s starting point: nothing filled, the whole quantity remaining. */
  function Start(m: map<int, seq<Order>>, o: Order, stats: Stats, now: U64): MatchState {
    MatchState(m, o, MatchResult([], false, o.quantity, 0), stats, now)
  }

  /** The incoming order after `match_order`: its fill is the matched quantity, its status follows. */
  function Settle(o: Order, filled: U64): (o': Order)
    ensures o'.id == o.id && o'.price == o.price && o'.quantity == o.quantity && o'.side == o.side
    ensures o'.filled == filled
    ensures o'.status == (if filled >= o.quantity then Filled else if filled > 0 then PartiallyFilled else o.status)
  {
    var f := o.(filled := filled);
    if IsFullyFilled(f) then f.(status := Filled)
    else if filled > 0 then f.(status := PartiallyFilled)
    else f
  }

  // ---------------------------------------------------------------------
  // What the loop promises
  //
  // The lemmas below relate a state `st` to the state `r` the loop ends in.
  // `RunsTo` states `r == Run(st)` behind `Sealed`, so that a proof by
  // induction over the steps sees one step at a time rather than the
  // solver unfolding `Run` (and so `Step`) a second time.

  /** The loop started in `st` ends in `r`. */
  ghost predicate RunsTo(st: MatchState, r: MatchState) {
    forall k {:trigger Sealed(st, k)} :: Sealed(st, k) ==> r == Run(st)
  }

  lemma RunsToRun(st: MatchState)
    ensures RunsTo(st, Run(st))
  {
    forall k | Sealed(st, k) ensures Run(st) == Run(st) { }
  }

  lemma RunsToSame(st: MatchState, r: MatchState)
    requires RunsTo(st, r)
    ensures r == Run(st)
  {
    assert Sealed(st, 0);
  }

  /** From a state where the loop goes on it ends where the next state's loop ends. */
  lemma RunsToStep(st: MatchState, r: MatchState)
    requires Continues(st) && RunsTo(st, r)
    ensures RunsTo(Step(st), r)
  {
    assert Sealed(st, 0);
    forall k | Sealed(Step(st), k) ensures r == Run(Step(st)) { }
  }

  /** Where the loop does not go on, it ends at once. */
  lemma RunsToStop(st: MatchState, r: MatchState)
    requires !Continues(st) && RunsTo(st, r)
    ensures r == st
  {
    assert Sealed(st, 0);
  }

  /** The loop ends exactly where its condition fails, with the incoming order and the clock unchanged. */
  lemma {:induction false} RunStops(st: MatchState, r: MatchState)
    requires RunsTo(st, r)
    ensures !Continues(r) && r.incoming == st.incoming && r.now == st.now
    decreases st.result.remainingQty, SumSizes(st.levels)
  {
    if Continues(st) {
      StepExhausts(st);
      RunsToStep(st, r);
      RunStops(Step(st), r);
    } else {
      RunsToStop(st, r);
    }
  }

  /** The trades of `r` after those already in `st`. */
  function Added(st: MatchState, r: MatchState): seq<Trade> {
    if |st.result.trades| <= |r.result.trades| then r.result.trades[|st.result.trades|..] else []
  }

  /** The trade of one step. */
  ghost function StepTrade(st: MatchState): Trade
    requires Continues(st)
  {
    Step(st).result.trades[|st.result.trades|]
  }

  /** Matching only appends trades to the result, one per step. */
  lemma {:induction false} RunExtends(st: MatchState, r: MatchState)
    requires RunsTo(st, r)
    ensures r.result.trades == st.result.trades + Added(st, r)
    ensures Continues(st) ==> Added(st, r) == [StepTrade(st)] + Added(Step(st), r)
    decreases st.result.remainingQty, SumSizes(st.levels)
  {
    if Continues(st) {
      StepExhausts(st);
      RunsToStep(st, r);
      var st' := Step(st);
      RunExtends(st', r);
      assert st'.result.trades == st.result.trades + [StepTrade(st)];
      assert r.result.trades == st.result.trades + ([StepTrade(st)] + Added(st', r));
    } else {
      RunsToStop(st, r);
    }
  }

  /** Total traded quantity of a sequence of trades. */
  function SumQty(ts: seq<Trade>): nat {
    if ts == [] then 0 else ts[0].quantity + SumQty(ts[1..])
  }

  lemma SumQtyCons(t: Trade, ts: seq<Trade>)
    ensures SumQty([t] + ts) == t.quantity + SumQty(ts)
  {
    assert ([t] + ts)[1..] == ts;
  }

  /** Filled plus remaining stays the incoming quantity, and the fill is the sum of the trades. */
  lemma {:induction false} RunConserves(st: MatchState, r: MatchState)
    requires RunsTo(st, r)
    requires st.result.filledQty + st.result.remainingQty == st.incoming.quantity
    ensures r.result.filledQty + r.result.remainingQty == st.incoming.quantity
    ensures r.result.filledQty == st.result.filledQty + SumQty(Added(st, r))
    decreases st.result.remainingQty, SumSizes(st.levels)
  {
    RunExtends(st, r);
    if Continues(st) {
      StepExhausts(st);
      RunsToStep(st, r);
      RunConserves(Step(st), r);
      SumQtyCons(StepTrade(st), Added(Step(st), r));
    } else {
      RunsToStop(st, r);
    }
  }

  /** A counter that wraps at 2^64 after one step of `q` and then `rest` has moved by `q + rest`. */
  lemma WrapStep(v: U64, q: U64, rest: int, total: int)
    requires total == (Add64(v, q) + rest) % U64_MOD
    ensures total == (v + (q + rest)) % U64_MOD
  {
    ModAdd(v + q, rest);
  }

  /** The volume counter grows by the traded quantity, modulo 2^64. */
  lemma {:induction false} RunVolume(st: MatchState, r: MatchState)
    requires RunsTo(st, r)
    ensures r.stats.totalVolume == (st.stats.totalVolume + SumQty(Added(st, r))) % U64_MOD
    decreases st.result.remainingQty, SumSizes(st.levels)
  {
    RunExtends(st, r);
    if Continues(st) {
      StepExhausts(st);
      RunsToStep(st, r);
      var st' := Step(st);
      RunVolume(st', r);
      SumQtyCons(StepTrade(st), Added(st', r));
      WrapStep(st.stats.totalVolume, TradeQty(st), SumQty(Added(st', r)), r.stats.totalVolume);
    } else {
      RunsToStop(st, r);
    }
  }

  /** The id counter and the trade counter both advance by the number of trades, modulo 2^64. */
  lemma {:induction false} RunCounters(st: MatchState, r: MatchState)
    requires RunsTo(st, r)
    ensures r.stats.nextTradeId == (st.stats.nextTradeId + |Added(st, r)|) % U64_MOD
    ensures r.stats.tradeCount == (st.stats.tradeCount + |Added(st, r)|) % U64_MOD
    decreases st.result.remainingQty, SumSizes(st.levels)
  {
    RunExtends(st, r);
    if Continues(st) {
      StepExhausts(st);
      RunsToStep(st, r);
      var st' := Step(st);
      RunCounters(st', r);
      var n := |Added(st', r)|;
      WrapStep(st.stats.nextTradeId, 1, n, r.stats.nextTradeId);
      WrapStep(st.stats.tradeCount, 1, n, r.stats.tradeCount);
    } else {
      RunsToStop(st, r);
    }
  }

  /** Trade ids run on from the counter, one per trade, wrapping around at 2^64. */
  lemma {:induction false} RunTradeIds(st: MatchState, r: MatchState)
    requires RunsTo(st, r)
    ensures var ts := Added(st, r);
      forall i :: 0 <= i < |ts| ==> ts[i].tradeId == (st.stats.nextTradeId + i) % U64_MOD
    decreases st.result.remainingQty, SumSizes(st.levels)
  {
    RunExtends(st, r);
    if Continues(st) {
      StepExhausts(st);
      RunsToStep(st, r);
      var st' := Step(st);
      RunTradeIds(st', r);
      var ts, ts' := Added(st, r), Added(st', r);
      var a := st.stats.nextTradeId;
      forall i | 0 < i < |ts|
        ensures ts[i].tradeId == (a + i) % U64_MOD
      {
        assert ts[i] == ts'[i - 1];
        WrapStep(a, 1, i - 1, ts[i].tradeId);
      }
    } else {
      RunsToStop(st, r);
    }
  }

  /** The incoming order is always the buyer or the seller of its trades, by its side. */
  lemma {:induction false} RunParties(st: MatchState, r: MatchState)
    requires RunsTo(st, r)
    ensures forall t :: t in Added(st, r) ==>
      if st.incoming.side == Buy then t.buyOrderId == st.incoming.id else t.sellOrderId == st.incoming.id
    decreases st.result.remainingQty, SumSizes(st.levels)
  {
    RunExtends(st, r);
    if Continues(st) {
      StepExhausts(st);
      RunsToStep(st, r);
      RunParties(Step(st), r);
    } else {
      RunsToStop(st, r);
    }
  }

  /** A Limit order never trades at a price worse than its own limit. */
  lemma {:induction false} RunLimitPrices(st: MatchState, r: MatchState)
    requires RunsTo(st, r) && st.incoming.orderType == Limit
    ensures forall t :: t in Added(st, r) ==>
      if st.incoming.side == Buy then t.price <= st.incoming.price else t.price >= st.incoming.price
    decreases st.result.remainingQty, SumSizes(st.levels)
  {
    RunExtends(st, r);
    if Continues(st) {
      StepExhausts(st);
      RunsToStep(st, r);
      RunLimitPrices(Step(st), r);
    } else {
      RunsToStop(st, r);
    }
  }

  /** Each trade takes at most one order out of the book, and none is added. */
  lemma {:induction false} RunLevels(st: MatchState, r: MatchState)
    requires RunsTo(st, r)
    ensures SumSizes(r.levels) <= SumSizes(st.levels)
    ensures SumSizes(st.levels) - SumSizes(r.levels) <= |Added(st, r)|
    decreases st.result.remainingQty, SumSizes(st.levels)
  {
    RunExtends(st, r);
    if Continues(st) {
      StepExhausts(st);
      RunsToStep(st, r);
      var best := BestPrice(st.levels, Against(st));
      var resting := BestOf(st.levels, Against(st));
      SizeRemoveAt(st.levels, best, 0);
      SizeUpdateAt(st.levels, best, 0, resting.(filled := Add64(resting.filled, TradeQty(st)), status := PartiallyFilled));
      RunLevels(Step(st), r);
    } else {
      RunsToStop(st, r);
    }
  }

  /** A step keeps the resting side well formed, adds no price level and trades at the best price. */
  lemma StepFormed(st: MatchState)
    requires Continues(st) && LevelsFormed(st.levels, Against(st))
    ensures LevelsFormed(Step(st).levels, Against(st))
    ensures Step(st).levels.Keys <= st.levels.Keys
    ensures StepTrade(st).price == BestPrice(st.levels, Against(st))
  {
    var m: map<int, seq<Order>>, m': map<int, seq<Order>> := st.levels, Step(st).levels;
    var b := BestPrice(m, Against(st));
    forall p | p in m' ensures m'[p] != [] && forall k :: 0 <= k < |m'[p]| ==> m'[p][k].price == p && m'[p][k].side == Against(st) {
      if p == b && |m[b]| > 1 {
        assert m'[p] == Without(m[b], 0) || m'[p] == m[b][0 := m'[b][0]];
      }
    }
  }

  /** Every trade of a run is at a price level of the resting side. */
  lemma {:induction false} RunPricesIn(st: MatchState, r: MatchState)
    requires RunsTo(st, r) && LevelsFormed(st.levels, Against(st))
    ensures forall t :: t in Added(st, r) ==> t.price in st.levels
    decreases st.result.remainingQty, SumSizes(st.levels)
  {
    RunExtends(st, r);
    if Continues(st) {
      StepExhausts(st);
      RunsToStep(st, r);
      StepFormed(st);
      RunPricesIn(Step(st), r);
    } else {
      RunsToStop(st, r);
    }
  }

  /** A run keeps the resting side well formed and opens no price level. */
  lemma {:induction false} RunFormed(st: MatchState, r: MatchState)
    requires RunsTo(st, r) && LevelsFormed(st.levels, Against(st))
    ensures LevelsFormed(r.levels, Against(st)) && r.levels.Keys <= st.levels.Keys
    decreases st.result.remainingQty, SumSizes(st.levels)
  {
    if Continues(st) {
      StepExhausts(st);
      RunsToStep(st, r);
      StepFormed(st);
      RunFormed(Step(st), r);
    } else {
      RunsToStop(st, r);
    }
  }

  /** After a step, no later trade is at a better price than the step's trade. */
  lemma NoBetterLater(st: MatchState, r: MatchState)
    requires Continues(st) && RunsTo(Step(st), r) && LevelsFormed(st.levels, Against(st))
    ensures forall t :: t in Added(Step(st), r) ==> !Better(Against(st), t.price, StepTrade(st).price)
  {
    StepFormed(st);
    RunPricesIn(Step(st), r);
    BestPriceRanks(st.levels, Against(st));
  }

  /**
   * Price priority: the trades of a run go from the best price outwards,
   * none at a price better than the one before it.
   */
  lemma {:induction false} RunPriceOrder(st: MatchState, r: MatchState)
    requires RunsTo(st, r) && LevelsFormed(st.levels, Against(st))
    ensures var ts := Added(st, r);
      forall i :: 0 < i < |ts| ==> !Better(Against(st), ts[i].price, ts[i - 1].price)
    decreases st.result.remainingQty, SumSizes(st.levels)
  {
    RunExtends(st, r);
    if Continues(st) {
      StepExhausts(st);
      RunsToStep(st, r);
      StepFormed(st);
      var st' := Step(st);
      RunPriceOrder(st', r);
      NoBetterLater(st, r);
      var ts, ts' := Added(st, r), Added(st', r);
      if |ts| > 1 {
        assert ts[1] == ts'[0];
      }
      forall i | 1 < i < |ts| ensures !Better(Against(st), ts[i].price, ts[i - 1].price) {
        assert ts[i] == ts'[i - 1] && ts[i - 1] == ts'[i - 2];
      }
    } else {
      RunsToStop(st, r);
    }
  }

  /**
   * What `match_order` promises its caller: the fill and the remainder add up
   * to the quantity, the fill is the sum of the trades, a remainder is left
   * only when the opposite side ran out or stopped crossing the limit, and
   * the order is settled as Filled when nothing remains, PartiallyFilled
   * when some of it traded.
   */
  lemma MatchOutcome(m: map<int, seq<Order>>, o: Order, stats: Stats, now: U64)
    ensures var st := Start(m, o, stats, now);
      var r := Run(st).result;
      r.filledQty + r.remainingQty == o.quantity && r.filledQty == SumQty(r.trades) &&
      (r.remainingQty > 0 ==>
        !HasBest(Run(st).levels, Opposite(o.side)) ||
        (o.orderType == Limit && !CanMatchWith(o, BestOf(Run(st).levels, Opposite(o.side))))) &&
      Settle(o, r.filledQty).status ==
        (if r.remainingQty == 0 then Filled else if r.filledQty > 0 then PartiallyFilled else o.status)
  {
    var st := Start(m, o, stats, now);
    RunsToRun(st);
    RunExtends(st, Run(st));
    RunConserves(st, Run(st));
    RunStops(st, Run(st));
  }

  /** Overwriting the order at `l` before removing it leaves no trace. */
  lemma RemoveAfterUpdate(b: BookView, l: Loc, o: Order)
    requires Holds(b, l)
    ensures Holds(UpdateInView(b, l, o), l)
    ensures RemoveFromView(UpdateInView(b, l, o), l) == RemoveFromView(b, l)
  {
    var vs := SideOf(b, l.side)[l.price];
    assert Without(vs[l.pos := o], l.pos) == Without(vs, l.pos);
  }

  // ---------------------------------------------------------------------
  // The engine

  /** `MatchingEngine`: the trade id generator and the statistics, matching in place on a storage. */
  class MatchingEngine {
    var nextTradeId: U64
    var tradeCount: U64
    var totalVolume: U64

    function Counters(): Stats
      reads this
    {
      Stats(nextTradeId, tradeCount, totalVolume)
    }

    /** Trade ids start at 1; the statistics at 0. */
    constructor ()
      ensures Counters() == Stats(1, 0, 0)
    {
      nextTradeId, tradeCount, totalVolume := 1, 0, 0;
    }

    /** `total_trades`: the number of trades executed since the last reset, modulo 2^64. */
    function TotalTrades(): (n: U64)
      reads this
      ensures n == Counters().tradeCount
    {
      tradeCount
    }

    /** `total_volume`: the quantity traded since the last reset, modulo 2^64. */
    function TotalVolume(): (n: U64)
      reads this
      ensures n == Counters().totalVolume
    {
      totalVolume
    }

    /** `reset_statistics`: zero the counters; trade ids keep running. */
    method ResetStatistics()
      modifies this
      ensures Counters() == Stats(old(nextTradeId), 0, 0)
    {
      tradeCount, totalVolume := 0, 0;
    }

    /** `generate_trade_id`: hand out the counter and advance it, wrapping at 2^64. */
    method GenerateTradeId() returns (id: U64)
      modifies this
      ensures id == old(nextTradeId) && nextTradeId == Add64(id, 1)
      ensures tradeCount == old(tradeCount) && totalVolume == old(totalVolume)
    {
      id := nextTradeId;
      nextTradeId := Add64(nextTradeId, 1);
    }

    /**
     * `match_order`: match `incoming` against the opposite side and settle
     * its fill. Returns the result and the incoming order as the caller's
     * reference holds it afterwards.
     */
    method MatchOrder(incoming: Order, storage: IntrusiveStorage, now: U64) returns (result: MatchResult, settled: Order)
      requires storage.Valid()
      modifies this, storage, storage.alloc
      ensures storage.Valid()
      ensures var opp := Opposite(incoming.side);
        var r := Run(Start(SideOf(old(storage.View()), opp), incoming, old(Counters()), now));
        SideOf(storage.View(), opp) == r.levels && Counters() == r.stats &&
        result == r.result.(fullyFilled := r.result.remainingQty == 0) &&
        settled == Settle(incoming, r.result.filledQty)
      ensures SideOf(storage.View(), incoming.side) == SideOf(old(storage.View()), incoming.side)
    {
      result := MatchResult([], false, incoming.quantity, 0);
      if incoming.orderType == Market {
        result := MatchMarketOrder(incoming, storage, result, now);
      } else {
        result := MatchLimitOrder(incoming, storage, result, now);
      }
      result := result.(fullyFilled := result.remainingQty == 0);
      settled := Settle(incoming, result.filledQty);
    }

    /** `match_market_order`: trade against the best opposite order until filled or the side is empty. */
    method MatchMarketOrder(incoming: Order, storage: IntrusiveStorage, result: MatchResult, now: U64)
      returns (result': MatchResult)
      requires storage.Valid() && incoming.orderType == Market
      modifies this, storage, storage.alloc
      ensures storage.Valid()
      ensures var opp := Opposite(incoming.side);
        MatchState(SideOf(storage.View(), opp), incoming, result', Counters(), now) ==
        Run(MatchState(SideOf(old(storage.View()), opp), incoming, result, old(Counters()), now))
      ensures SideOf(storage.View(), incoming.side) == SideOf(old(storage.View()), incoming.side)
    {
      var opp := Opposite(incoming.side);
      ghost var st0 := MatchState(SideOf(storage.View(), opp), incoming, result, Counters(), now);
      result' := result;
      while result'.remainingQty > 0
        invariant storage.Valid()
        invariant Run(MatchState(SideOf(storage.View(), opp), incoming, result', Counters(), now)) == Run(st0)
        invariant SideOf(storage.View(), incoming.side) == SideOf(old(storage.View()), incoming.side)
        decreases result'.remainingQty, SumSizes(SideOf(storage.View(), opp))
      {
        ghost var st := MatchState(SideOf(storage.View(), opp), incoming, result', Counters(), now);
        var resting := BestOpposite(incoming.side, storage);
        if resting == None {
          break;
        }
        StepExhausts(st);
        result' := ExecuteTrade(incoming, resting.value, storage, result', now);
      }
    }

    /** `match_limit_order`: as the market loop, but stop at the first opposite order the limit does not reach. */
    method MatchLimitOrder(incoming: Order, storage: IntrusiveStorage, result: MatchResult, now: U64)
      returns (result': MatchResult)
      requires storage.Valid() && incoming.orderType != Market
      modifies this, storage, storage.alloc
      ensures storage.Valid()
      ensures var opp := Opposite(incoming.side);
        MatchState(SideOf(storage.View(), opp), incoming, result', Counters(), now) ==
        Run(MatchState(SideOf(old(storage.View()), opp), incoming, result, old(Counters()), now))
      ensures SideOf(storage.View(), incoming.side) == SideOf(old(storage.View()), incoming.side)
    {
      var opp := Opposite(incoming.side);
      ghost var st0 := MatchState(SideOf(storage.View(), opp), incoming, result, Counters(), now);
      result' := result;
      while result'.remainingQty > 0
        invariant storage.Valid()
        invariant Run(MatchState(SideOf(storage.View(), opp), incoming, result', Counters(), now)) == Run(st0)
        invariant SideOf(storage.View(), incoming.side) == SideOf(old(storage.View()), incoming.side)
        decreases result'.remainingQty, SumSizes(SideOf(storage.View(), opp))
      {
        ghost var st := MatchState(SideOf(storage.View(), opp), incoming, result', Counters(), now);
        var resting := BestOpposite(incoming.side, storage);
        if resting == None {
          break;
        }
        if !CanMatchWith(incoming, storage.OrderAt(resting.value)) {
          break;
        }
        StepExhausts(st);
        result' := ExecuteTrade(incoming, resting.value, storage, result', now);
      }
    }

    /** The head of the best level opposite `side`: `get_best_ask` for a buyer, `get_best_bid` for a seller. */
    method BestOpposite(side: Side, storage: IntrusiveStorage) returns (p: Option<nat>)
      requires storage.Valid()
      ensures var m := SideOf(storage.View(), Opposite(side));
        (p == None <==> !HasBest(m, Opposite(side))) &&
        (p.Some? ==> p.value in storage.alloc.cells && Placed(storage.R, p.value) &&
                     LocOf(storage.R, p.value) == Loc(Opposite(side), BestPrice(m, Opposite(side)), 0) &&
                     storage.alloc.cells[p.value].order == BestOf(m, Opposite(side)))
    {
      if side == Buy {
        p := storage.GetBestAsk();
      } else {
        p := storage.GetBestBid();
      }
    }

    /**
     * `execute_trade`: trade the smaller remainder at the resting order's
     * price, count it, and take the resting order out once it is filled.
     */
    method ExecuteTrade(incoming: Order, p: nat, storage: IntrusiveStorage, result: MatchResult, now: U64)
      returns (result': MatchResult)
      requires storage.Valid()
      requires var opp := Opposite(incoming.side);
        var st := MatchState(SideOf(storage.View(), opp), incoming, result, Counters(), now);
        Continues(st) && p in storage.alloc.cells && Placed(storage.R, p) &&
        LocOf(storage.R, p) == Loc(opp, BestPrice(st.levels, opp), 0) &&
        storage.alloc.cells[p].order == BestOf(st.levels, opp)
      modifies this, storage, storage.alloc
      ensures storage.Valid()
      ensures var opp := Opposite(incoming.side);
        MatchState(SideOf(storage.View(), opp), incoming, result', Counters(), now) ==
        Step(MatchState(SideOf(old(storage.View()), opp), incoming, result, old(Counters()), now))
      ensures SideOf(storage.View(), incoming.side) == SideOf(old(storage.View()), incoming.side)
    {
      var resting := storage.OrderAt(p);
      var tradeQty := Min(result.remainingQty, Remaining(resting));
      var tradePrice := resting.price;
      var tradeId := GenerateTradeId();
      var trade := if incoming.side == Buy then NewTrade(tradeId, incoming.id, resting.id, tradePrice, tradeQty, now)
                   else NewTrade(tradeId, resting.id, incoming.id, tradePrice, tradeQty, now);
      var filled := resting.(filled := Add64(resting.filled, tradeQty));
      result' := result.(trades := result.trades + [trade], remainingQty := result.remainingQty - tradeQty,
                         filledQty := Add64(result.filledQty, tradeQty));
      tradeCount := Add64(tradeCount, 1);
      totalVolume := Add64(totalVolume, tradeQty);
      if IsFullyFilled(filled) {
        ghost var before := storage.View();
        ghost var l := LocOf(storage.R, p);
        storage.SetOrder(p, filled.(status := Filled));
        SlotIndexed(storage.R, p);
        RemoveAfterUpdate(before, l, filled.(status := Filled));
        var _ := storage.RemoveOrder(resting.id);
      } else {
        storage.SetOrder(p, filled.(status := PartiallyFilled));
      }
    }
  }
}
