// `IntrusiveStorage` (src/orderbook/storage/intrusive_storage.hpp): orders in
// slab-allocated slots linked into per-price FIFO lists, two price maps and an
// id index. Every call is one atomic step (the spinlock is not modelled).
//
// A pointer `Order*` is a slot number of the allocator; the node in a slot
// carries the order and its `next`/`prev` links. The ghost field `R` records
// the representation with its queues and book (see module Storage), and the
// invariant `Valid` ties it to the concrete fields.

module Intrusive {
  import opened Common
  import opened Orders
  import opened Allocators
  import opened Storage

  /** The default `SlabSize` template argument. */
  const SLAB_SIZE: nat := 4096

  class IntrusiveStorage {
    const alloc: SlabAllocator<OrderNode>
    var buyLevels: map<int, LevelList>
    var sellLevels: map<int, LevelList>
    var index: map<U64, nat>
    var totalOrders: nat

    ghost var R: Rep

    /** The book this storage holds: per side, price to the FIFO queue of resting orders. */
    ghost function View(): BookView
      reads this
    {
      ViewOf(R)
    }

    ghost predicate Valid()
      reads this, alloc
    {
      alloc.Valid() && alloc.cells.Keys == alloc.Allocated && Inv(R) &&
      R.cells == alloc.cells && R.buyLevels == buyLevels && R.sellLevels == sellLevels &&
      R.index == index && R.total == totalOrders
    }

    constructor ()
      ensures Valid() && fresh(alloc)
      ensures View() == BookView(map[], map[]) && index == map[] && totalOrders == 0
    {
      alloc := new SlabAllocator<OrderNode>(SLAB_SIZE);
      buyLevels, sellLevels := map[], map[];
      index := map[];
      totalOrders := 0;
      R := EmptyRep();
      new;
      EmptyRepValid();
    }

    /** The order in slot `s`, read through its `Order*`. */
    function OrderAt(s: nat): (o: Order)
      reads this, alloc
      requires Valid() && s in alloc.cells
      ensures o == alloc.cells[s].order
    {
      alloc.cells[s].order
    }

    /**
     * `add_order_impl`: a duplicate id is refused; otherwise the order is
     * copied into a fresh slot, appended at the tail of its price level
     * (created if missing), indexed and counted.
     */
    method AddOrder(o: Order) returns (ok: bool)
      requires Valid()
      modifies this, alloc
      ensures Valid()
      ensures ok <==> o.id !in old(index)
      ensures ok ==> View() == AddToView(old(View()), o) && totalOrders == old(totalOrders) + 1 &&
                     index.Keys == old(index).Keys + {o.id}
      ensures !ok ==> View() == old(View()) && index == old(index) && totalOrders == old(totalOrders)
    {
      if o.id in index {
        return false;
      }
      AddRepTail(R, o);
      var s, levels := PlaceNode(o, if o.side == Buy then buyLevels else sellLevels);
      ghost var r' := AddedRep(R, o, s);
      Commit(o.side, levels, index[o.id := s], totalOrders + 1, r');
      ok := true;
    }

    /** `allocator_.construct(order)` followed by `add_to_price_level` on the new node. */
    method PlaceNode(o: Order, levels: map<int, LevelList>) returns (s: nat, levels': map<int, LevelList>)
      requires alloc.Valid() && alloc.cells.Keys == alloc.Allocated
      requires o.price in levels ==>
        levels[o.price].head.Some? && levels[o.price].tail.Some? && levels[o.price].tail.value in alloc.cells
      modifies alloc
      ensures alloc.Valid() && alloc.cells.Keys == alloc.Allocated && s !in old(alloc.cells)
      ensures alloc.cells == AppendCells(old(alloc.cells), o, s, if o.price in levels then levels[o.price].tail else None)
      ensures levels' == levels[o.price := AppendHeader(levels, o.price, s)]
    {
      s := alloc.Construct(OrderNode(o, None, None));
      levels' := AddToPriceLevel(levels, s);
      AppendCellsKeys(old(alloc.cells), o, s, if o.price in levels then levels[o.price].tail else None);
    }

    /**
     * `add_to_price_level`: the node in slot `s` joins the tail of the level
     * at its price; `levels[price]` creates an empty level when there is none.
     */
    method AddToPriceLevel(levels: map<int, LevelList>, s: nat) returns (levels': map<int, LevelList>)
      requires s in alloc.cells
      requires var p := alloc.cells[s].order.price;
        p in levels ==> levels[p].head.Some? && levels[p].tail.Some? && levels[p].tail.value in alloc.cells
      modifies alloc`cells
      ensures old(alloc.FreeValid()) ==> alloc.FreeValid()
      ensures var p := old(alloc.cells[s]).order.price;
        levels' == levels[p := AppendHeader(levels, p, s)] &&
        alloc.cells == LinkAfter(old(alloc.cells), s, if p in levels then levels[p].tail else None)
    {
      var p := alloc.cells[s].order.price;
      var level := if p in levels then levels[p] else LevelList(None, None, 0);
      if level.head == None {
        level := LevelList(Some(s), Some(s), level.count + 1);
        alloc.Set(s, alloc.cells[s].(next := None, prev := None));
      } else {
        var t := level.tail.value;
        alloc.Set(s, alloc.cells[s].(prev := level.tail, next := None));
        alloc.Set(t, alloc.cells[t].(next := Some(s)));
        level := LevelList(level.head, Some(s), level.count + 1);
      }
      levels' := levels[p := level];
    }

    /**
     * `remove_order_impl`: an unknown id is refused; otherwise the order is
     * unlinked from its level (an emptied level is erased), dropped from the
     * index and its slot destroyed.
     */
    method RemoveOrder(id: U64) returns (ok: bool)
      requires Valid()
      modifies this, alloc
      ensures Valid()
      ensures ok <==> id in old(index)
      ensures ok ==> View() == RemoveFromView(old(View()), old(LocOfId(R, id))) &&
                     totalOrders == old(totalOrders) - 1 && index == old(index) - {id}
      ensures !ok ==> View() == old(View()) && index == old(index) && totalOrders == old(totalOrders)
    {
      if id !in index {
        return false;
      }
      var s := index[id];
      assert s in R.cells && R.cells[s].order.id == id by {
        IdFacts(R, id);
      }
      ghost var r' := RemovedRep(R, s);
      var side := alloc.cells[s].order.side;
      var levels := UnlinkNode(s, if side == Buy then buyLevels else sellLevels);
      Commit(side, levels, index - {id}, totalOrders - 1, r');
      ok := true;
    }

    /** Store the updated price map of `side`, the index and the count, which together with the arena make up `r`. */
    method Commit(side: Side, levels: map<int, LevelList>, idx: map<U64, nat>, total: nat, ghost r: Rep)
      requires alloc.Valid() && alloc.cells.Keys == alloc.Allocated && Inv(r) && r.cells == alloc.cells
      requires side == Buy ==> r.buyLevels == levels && r.sellLevels == sellLevels
      requires side == Sell ==> r.sellLevels == levels && r.buyLevels == buyLevels
      requires r.index == idx && r.total == total
      modifies this
      ensures Valid() && R == r && index == idx && totalOrders == total
    {
      if side == Buy {
        buyLevels := levels;
      } else {
        sellLevels := levels;
      }
      index, totalOrders, R := idx, total, r;
    }

    /** `remove_from_price_level` on a resting node followed by `allocator_.destroy`. */
    method UnlinkNode(s: nat, levels: map<int, LevelList>) returns (levels': map<int, LevelList>)
      requires alloc.Valid() && alloc.cells.Keys == alloc.Allocated && s in alloc.cells
      requires var n := alloc.cells[s];
        (n.prev.Some? ==> n.prev.value in alloc.cells) && (n.next.Some? ==> n.next.value in alloc.cells) &&
        n.order.price in levels && levels[n.order.price].count > 0
      modifies alloc
      ensures alloc.Valid() && alloc.cells.Keys == alloc.Allocated
      ensures var n := old(alloc.cells[s]);
        var p := n.order.price;
        alloc.cells == Unlink(old(alloc.cells), n.prev, n.next) - {s} &&
        levels' == if levels[p].count == 1 then levels - {p} else levels[p := HeaderWithout(levels[p], n.prev, n.next)]
    {
      ghost var n := alloc.cells[s];
      levels' := RemoveFromPriceLevel(levels, s);
      UnlinkKeys(old(alloc.cells), n.prev, n.next);
      alloc.Destroy(Some(s));
    }

    /**
     * `remove_from_price_level`: point the node's neighbours at each other,
     * move the level's head or tail when the node was one of them, count it
     * out and erase a level that became empty. A level missing from `levels`
     * leaves everything as it was.
     */
    method RemoveFromPriceLevel(levels: map<int, LevelList>, s: nat) returns (levels': map<int, LevelList>)
      requires s in alloc.cells
      requires var n := alloc.cells[s];
        (n.prev.Some? ==> n.prev.value in alloc.cells) && (n.next.Some? ==> n.next.value in alloc.cells) &&
        (n.order.price in levels ==> levels[n.order.price].count > 0)
      modifies alloc`cells
      ensures old(alloc.FreeValid()) ==> alloc.FreeValid()
      ensures var n := old(alloc.cells[s]);
        var p := n.order.price;
        if p !in levels then levels' == levels && alloc.cells == old(alloc.cells)
        else
          alloc.cells == Unlink(old(alloc.cells), n.prev, n.next) &&
          levels' == if levels[p].count == 1 then levels - {p} else levels[p := HeaderWithout(levels[p], n.prev, n.next)]
    {
      var node := alloc.cells[s];
      var p := node.order.price;
      if p !in levels {
        return levels;
      }
      var level := levels[p];
      if node.prev.Some? {
        var a := node.prev.value;
        alloc.Set(a, alloc.cells[a].(next := node.next));
      } else {
        level := level.(head := node.next);
      }
      if node.next.Some? {
        var b := node.next.value;
        alloc.Set(b, alloc.cells[b].(prev := node.prev));
      } else {
        level := level.(tail := node.prev);
      }
      level := level.(count := level.count - 1);
      if level.count == 0 {
        levels' := levels - {p};
      } else {
        levels' := levels[p := level];
      }
    }

    /** `find_order_impl`: the slot holding the order with this id, or null. */
    method FindOrder(id: U64) returns (p: Option<nat>)
      requires Valid()
      ensures p.Some? <==> id in index
      ensures p.Some? ==> p.value in alloc.cells && alloc.cells[p.value].order.id == id &&
                          Placed(R, p.value) && LocOf(R, p.value) == LocOfId(R, id)
    {
      if id !in index {
        return None;
      }
      IdFacts(R, id);
      return Some(index[id]);
    }

    /** `get_best_bid_impl`: the head of the highest buy level, or null when there are no bids. */
    method GetBestBid() returns (p: Option<nat>)
      requires Valid()
      ensures p == None <==> R.bids == map[]
      ensures p.Some? ==> R.bids.Keys != {} && |R.bids[BestPrice(R.bids, Buy)]| > 0 &&
                          p.value in alloc.cells && Placed(R, p.value) &&
                          LocOf(R, p.value) == Loc(Buy, BestPrice(R.bids, Buy), 0) &&
                          alloc.cells[p.value].order == R.bids[BestPrice(R.bids, Buy)][0]
    {
      if buyLevels == map[] {
        LevelsEmpty(R, Buy);
        return None;
      }
      LevelsEmpty(R, Buy);
      MaxExists(buyLevels.Keys);
      var best :| best in buyLevels && forall q :: q in buyLevels ==> q <= best;
      p := HeadOf(Buy, best);
    }

    /** `get_best_ask_impl`: the head of the lowest sell level, or null when there are no asks. */
    method GetBestAsk() returns (p: Option<nat>)
      requires Valid()
      ensures p == None <==> R.asks == map[]
      ensures p.Some? ==> R.asks.Keys != {} && |R.asks[BestPrice(R.asks, Sell)]| > 0 &&
                          p.value in alloc.cells && Placed(R, p.value) &&
                          LocOf(R, p.value) == Loc(Sell, BestPrice(R.asks, Sell), 0) &&
                          alloc.cells[p.value].order == R.asks[BestPrice(R.asks, Sell)][0]
    {
      if sellLevels == map[] {
        LevelsEmpty(R, Sell);
        return None;
      }
      LevelsEmpty(R, Sell);
      MinExists(sellLevels.Keys);
      var best :| best in sellLevels && forall q :: q in sellLevels ==> best <= q;
      p := HeadOf(Sell, best);
    }

    /** The head slot of the level at `best`, the best price of `side`. */
    method HeadOf(side: Side, best: int) returns (p: Option<nat>)
      requires Valid()
      requires best in LevelsOf(R, side)
      requires forall q :: q in LevelsOf(R, side) ==> !Better(side, q, best)
      ensures var m := SideOf(View(), side);
        p.Some? && m.Keys != {} && |m[BestPrice(m, side)]| > 0 && p.value in alloc.cells && Placed(R, p.value) &&
        LocOf(R, p.value) == Loc(side, BestPrice(m, side), 0) &&
        alloc.cells[p.value].order == m[BestPrice(m, side)][0]
    {
      ghost var r := R;
      LevelHeader(r, side, best);
      SideOfView(r, side);
      ghost var m := VOf(r, side);
      ghost var qs := QOf(r, side)[best];
      BestIsUnique(r, side, best);
      LinkedAt(qs, m[best], r.cells, 0);
      LinkedDistinct(qs, m[best], r.cells);
      PositionUnique(qs, 0);
      p := (if side == Buy then buyLevels else sellLevels)[best].head;
    }

    /** `get_orders_at_price_impl`: the level's orders in list order, or none when there is no level. */
    method GetOrdersAtPrice(price: int, side: Side) returns (os: seq<Order>)
      requires Valid()
      ensures os == if price in SideOf(View(), side) then SideOf(View(), side)[price] else []
    {
      ghost var r := R;
      LevelHeader(r, side, price);
      SideOfView(r, side);
      var levels := if side == Buy then buyLevels else sellLevels;
      if price !in levels {
        return [];
      }
      os := WalkLevel(levels[price].head, QOf(r, side)[price], VOf(r, side)[price]);
    }

    /** The traversal `current = current->next` from `head`, collecting the orders. */
    method WalkLevel(head: Link, ghost qs: seq<nat>, ghost vs: seq<Order>) returns (os: seq<Order>)
      requires Linked(qs, vs, alloc.cells) && qs != [] && head == Some(qs[0])
      ensures os == vs
    {
      os := [];
      var current := head;
      var i := 0;
      while current.Some?
        invariant 0 <= i <= |qs| && |os| == i && os == vs[..i]
        invariant current == (if i < |qs| then Some(qs[i]) else None)
        decreases |qs| - i
      {
        LinkedAt(qs, vs, alloc.cells, i);
        os := os + [alloc.cells[current.value].order];
        current := alloc.cells[current.value].next;
        i := i + 1;
      }
      assert vs[..i] == vs;
    }

    /** `calculate_level_quantity`: the remaining quantities of a level summed in a `uint64_t`. */
    method CalculateLevelQuantity(head: Link, ghost qs: seq<nat>, ghost vs: seq<Order>) returns (total: U64)
      requires Linked(qs, vs, alloc.cells) && qs != [] && head == Some(qs[0])
      ensures total == LevelQuantity(vs) % U64_MOD
    {
      total := 0;
      var current := head;
      var i := 0;
      while current.Some?
        invariant 0 <= i <= |qs|
        invariant total == LevelQuantity(vs[..i]) % U64_MOD
        invariant current == (if i < |qs| then Some(qs[i]) else None)
        decreases |qs| - i
      {
        LinkedAt(qs, vs, alloc.cells, i);
        assert vs[..i + 1][..i] == vs[..i];
        total := Add64(total, Remaining(alloc.cells[current.value].order));
        current := alloc.cells[current.value].next;
        i := i + 1;
      }
      assert vs[..i] == vs;
    }

    /**
     * `get_depth_impl`: up to `levels` bid levels from the highest price
     * down, then up to `levels` ask levels from the lowest price up.
     */
    method GetDepth(levels: nat) returns (result: seq<DepthEntry>)
      requires Valid()
      ensures result == TopLevels(R.bids, levels, Buy) + TopLevels(R.asks, levels, Sell)
    {
      ghost var r := R;
      WalkableOf(r, Buy);
      WalkableOf(r, Sell);
      var bids := SideDepth(buyLevels, r.buyQ, r.bids, Buy, levels);
      var asks := SideDepth(sellLevels, r.sellQ, r.asks, Sell, levels);
      result := bids + asks;
    }

    /** One side of `get_depth_impl`: walk the price map from the best level while fewer than `n` are listed. */
    method SideDepth(lv: map<int, LevelList>, ghost q: map<int, seq<nat>>, ghost v: map<int, seq<Order>>,
                     side: Side, n: nat) returns (result: seq<DepthEntry>)
      requires Walkable(lv, q, v, alloc.cells)
      ensures result == TopLevels(v, n, side)
    {
      result := [];
      var rest := lv;
      ghost var restQ, restV, cells := q, v, alloc.cells;
      var count := 0;
      ghost var left: nat := n;
      while count < n && rest != map[]
        invariant count <= n && left == n - count && alloc.cells == cells
        invariant Walkable(rest, restQ, restV, cells)
        invariant result + TopLevels(restV, left, side) == TopLevels(v, n, side)
        decreases left
      {
        var best, entry := BestLevel(rest, restQ, restV, cells, side);
        TopLevelsStep(TopLevels(v, n, side), result, restV, left, side, best, entry);
        WalkableDrop(rest, restQ, restV, cells, best);
        result := result + [entry];
        rest, restQ, restV := rest - {best}, restQ - {best}, restV - {best};
        count, left := count + 1, left - 1;
      }
      assert TopLevels(restV, left, side) == [] by {
        if count < n {
          assert restV.Keys == {};
        }
      }
    }

    /** The depth row of the best level still to be listed. */
    method BestLevel(rest: map<int, LevelList>, ghost q: map<int, seq<nat>>, ghost v: map<int, seq<Order>>,
                     ghost cells: map<nat, OrderNode>, side: Side) returns (best: int, entry: DepthEntry)
      requires Walkable(rest, q, v, cells) && rest != map[] && alloc.cells == cells
      ensures best in rest && best in v && v.Keys != {} && best == BestPrice(v, side) && entry == DepthOf(best, v[best])
    {
      WalkableAt(rest, q, v, alloc.cells, Pick(rest.Keys));
      BestPriceRanks(v, side);
      best :| best in rest && forall x :: x in rest ==> !Better(side, x, best);
      BestPriceUnique(v, side, best);
      WalkableAt(rest, q, v, alloc.cells, best);
      var qty := CalculateLevelQuantity(rest[best].head, q[best], v[best]);
      entry := DepthEntry(best, qty, rest[best].count);
    }

    /** `clear_impl`: destroy every indexed order, then empty both sides and the index. */
    method Clear()
      requires Valid()
      modifies this, alloc
      ensures Valid()
      ensures View() == BookView(map[], map[]) && index == map[] && totalOrders == 0
    {
      var rest := index;
      Counts(R);
      while rest != map[]
        invariant alloc.Valid() && alloc.cells.Keys == alloc.Allocated
        invariant IndexValid(rest, alloc.cells)
        decreases |rest|
      {
        var id :| id in rest;
        IndexDrop(rest, alloc.cells, id);
        alloc.Destroy(Some(rest[id]));
        KeysDrop(rest, id);
        rest := rest - {id};
      }
      IndexEmpty(alloc.cells);
      buyLevels, sellLevels := map[], map[];
      index := map[];
      totalOrders := 0;
      R := EmptyRep();
      EmptyRepValid();
    }

    /** `size_impl`: the number of resting orders. */
    function Size(): (n: nat)
      reads this, alloc
      requires Valid()
      ensures n == Count(View()) && n == |index|
    {
      Counts(R);
      totalOrders
    }

    /** `num_price_levels`: the number of non-empty price levels on both sides. */
    function NumPriceLevels(): (n: nat)
      reads this, alloc
      requires Valid()
      ensures n == |R.bids.Keys| + |R.asks.Keys|
    {
      Counts(R);
      |buyLevels| + |sellLevels|
    }

    /** `allocator_capacity`: never below the number of resting orders. */
    function AllocatorCapacity(): (n: nat)
      reads this, alloc
      requires Valid()
      ensures n >= Size()
    {
      alloc.SlotsAccounted();
      Counts(R);
      assert |alloc.cells| == |alloc.cells.Keys| == |alloc.Allocated|;
      alloc.TotalCapacity()
    }

    /**
     * A write through an `Order*` to slot `s` (what the matcher and
     * `cancel_order` do to a resting order): the new value keeps the id,
     * price and side.
     */
    method SetOrder(s: nat, o: Order)
      requires Valid() && s in alloc.cells
      requires o.id == alloc.cells[s].order.id && o.price == alloc.cells[s].order.price &&
               o.side == alloc.cells[s].order.side
      modifies this, alloc
      ensures Valid()
      ensures Placed(old(R), s) && Holds(old(View()), old(LocOf(R, s))) &&
              View() == UpdateInView(old(View()), old(LocOf(R, s)), o)
      ensures index == old(index) && totalOrders == old(totalOrders)
      ensures s in alloc.cells && Placed(R, s) && LocOf(R, s) == old(LocOf(R, s))
    {
      ghost var r := R;
      UpdateRepValid(r, s, o);
      alloc.Set(s, alloc.cells[s].(order := o));
      ghost var r' := UpdateRep(r, s, o);
      assert r'.cells == alloc.cells && r'.buyLevels == buyLevels && r'.sellLevels == sellLevels &&
             r'.index == index && r'.total == totalOrders by {
        UpdateRepShape(r, s, o);
      }
      R := r';
    }
  }

  /** A side has no levels exactly when its view is empty. */
  lemma LevelsEmpty(r: Rep, side: Side)
    requires Inv(r)
    ensures LevelsOf(r, side) == map[] <==> VOf(r, side) == map[]
    ensures LevelsOf(r, side).Keys == VOf(r, side).Keys
  {
    SideOfInv(r, side);
  }

  /** A price that no level of the side beats is the side's best price. */
  lemma BestIsUnique(r: Rep, side: Side, best: int)
    requires Inv(r)
    requires best in LevelsOf(r, side)
    requires forall q :: q in LevelsOf(r, side) ==> !Better(side, q, best)
    ensures VOf(r, side).Keys != {} && best == BestPrice(VOf(r, side), side)
  {
    LevelsEmpty(r, side);
    var b := BestPrice(VOf(r, side), side);
    assert b in LevelsOf(r, side) && best in VOf(r, side);
  }

  /** Rewiring two neighbours leaves the arena's slots as they were. */
  lemma UnlinkKeys(cells: map<nat, OrderNode>, a: Link, b: Link)
    requires a.Some? ==> a.value in cells
    requires b.Some? ==> b.value in cells
    ensures Unlink(cells, a, b).Keys == cells.Keys
  {
  }

  lemma KeysPut<K, V>(m: map<K, V>, k: K, v: V)
    ensures m[k := v].Keys == m.Keys + {k}
  {
  }

  lemma KeysDrop<K, V>(m: map<K, V>, k: K)
    ensures (m - {k}).Keys == m.Keys - {k}
  {
  }
}
