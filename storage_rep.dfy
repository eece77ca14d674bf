// The representation of the intrusive-list order storage
// (src/orderbook/storage/intrusive_storage.hpp) as a plain value, with the
// invariant that ties its maps, links and index together.
//
// Orders live in slots of a slab allocator. Each slot holds an `OrderNode`:
// the order and its intrusive `next`/`prev` links. Each side keeps a map from
// price to a `LevelList` (head, tail, count), and an index maps order ids to
// slots. The ghost state records, per price level, the queue of slots in list
// order (`BuyQ`, `SellQ`), the orders in those slots (`Bids`, `Asks`), and the
// level that owns each slot (`Owner`).

module Storage {
  import opened Common
  import opened Orders
  import opened Allocators

  datatype OrderNode = OrderNode(order: Order, next: Link, prev: Link)
  datatype LevelList = LevelList(head: Link, tail: Link, count: nat)
  datatype Place = Place(side: Side, price: int)
  /** Where an order rests: its side, its price level and its position in the level's queue. */
  datatype Loc = Loc(side: Side, price: int, pos: nat)
  /** One row of `get_depth`: price, total remaining quantity, number of orders. */
  datatype DepthEntry = DepthEntry(price: int, quantity: U64, count: nat)

  /** The book as the matcher sees it: per side, price level to FIFO queue of orders. */
  datatype BookView = BookView(bids: map<int, seq<Order>>, asks: map<int, seq<Order>>)

  // ---------------------------------------------------------------------
  // Abstract operations on the view

  function SideOf(b: BookView, side: Side): map<int, seq<Order>> {
    if side == Buy then b.bids else b.asks
  }

  function WithSide(b: BookView, side: Side, m: map<int, seq<Order>>): BookView {
    if side == Buy then b.(bids := m) else b.(asks := m)
  }

  /** Sequence `s` without its element at position `k`. */
  function Without<T>(s: seq<T>, k: nat): (r: seq<T>)
    requires k < |s|
    ensures |r| == |s| - 1
    ensures forall i :: 0 <= i < |r| ==> r[i] == if i < k then s[i] else s[i + 1]
  {
    s[..k] + s[k + 1..]
  }

  /** Append an order at the tail of its price level, creating the level if needed. */
  function Enqueue(m: map<int, seq<Order>>, o: Order): (r: map<int, seq<Order>>)
    ensures r.Keys == m.Keys + {o.price}
    ensures r[o.price] == (if o.price in m then m[o.price] else []) + [o]
    ensures forall p :: p in m && p != o.price ==> r[p] == m[p]
  {
    m[o.price := (if o.price in m then m[o.price] else []) + [o]]
  }

  /** Drop the order at position `k` of level `p`; a level left empty disappears. */
  function RemoveAt<T>(m: map<int, seq<T>>, p: int, k: nat): (r: map<int, seq<T>>)
    requires p in m && k < |m[p]|
    ensures |m[p]| == 1 ==> r == m - {p}
    ensures |m[p]| > 1 ==> r == m[p := Without(m[p], k)]
  {
    var rest := Without(m[p], k);
    if rest == [] then m - {p} else m[p := rest]
  }

  /** Replace the order at position `k` of level `p`. */
  function UpdateAt(m: map<int, seq<Order>>, p: int, k: nat, o: Order): (r: map<int, seq<Order>>)
    requires p in m && k < |m[p]|
    ensures r.Keys == m.Keys && |r[p]| == |m[p]| && r[p][k] == o
  {
    m[p := m[p][k := o]]
  }

  function AddToView(b: BookView, o: Order): BookView {
    WithSide(b, o.side, Enqueue(SideOf(b, o.side), o))
  }

  /** Location `l` holds an order of the book `b`. */
  predicate Holds(b: BookView, l: Loc) {
    l.price in SideOf(b, l.side) && l.pos < |SideOf(b, l.side)[l.price]|
  }

  function RemoveFromView(b: BookView, l: Loc): BookView
    requires Holds(b, l)
  {
    WithSide(b, l.side, RemoveAt(SideOf(b, l.side), l.price, l.pos))
  }

  function UpdateInView(b: BookView, l: Loc, o: Order): BookView
    requires Holds(b, l)
  {
    WithSide(b, l.side, UpdateAt(SideOf(b, l.side), l.price, l.pos, o))
  }

  /** Number of resting orders in the view. */
  ghost function Count(b: BookView): nat {
    SumSizes(b.bids) + SumSizes(b.asks)
  }

  /** The price level the matcher draws from first on a side: the highest bid or the lowest ask. */
  ghost function BestPrice(m: map<int, seq<Order>>, side: Side): int
    requires m.Keys != {}
  {
    if side == Buy then MaxPrice(m.Keys) else MinPrice(m.Keys)
  }

  /** Sum of remaining quantities of a level, unbounded. */
  function LevelQuantity(vs: seq<Order>): nat {
    if vs == [] then 0 else LevelQuantity(vs[..|vs| - 1]) + Remaining(vs[|vs| - 1])
  }

  // ---------------------------------------------------------------------
  // The representation invariant, on plain values

  function Pred(q: seq<nat>, i: nat): Link {
    if 0 < i <= |q| then Some(q[i - 1]) else None
  }

  ghost predicate Distinct(qs: seq<nat>) {
    forall i, j :: 0 <= i < j < |qs| ==> qs[i] != qs[j]
  }

  /** The slots `qs` form a doubly linked list carrying the orders `vs`. */
  ghost predicate Linked(qs: seq<nat>, vs: seq<Order>, cells: map<nat, OrderNode>) {
    |vs| == |qs| &&
    forall i {:trigger cells[qs[i]]} :: 0 <= i < |qs| ==>
      qs[i] in cells && cells[qs[i]] == OrderNode(vs[i], Succ(qs, i), Pred(qs, i))
  }

  /**
   * A linked list never visits a slot twice: two positions holding the same
   * slot would see the same `prev` link, and so on back to the head, whose
   * `prev` is null.
   */
  lemma LinkedDistinct(qs: seq<nat>, vs: seq<Order>, cells: map<nat, OrderNode>)
    requires Linked(qs, vs, cells)
    ensures Distinct(qs)
  {
    forall i, j | 0 <= i < j < |qs|
      ensures qs[i] != qs[j]
    {
      LinkedApart(qs, vs, cells, i, j);
    }
  }

  lemma {:induction false} LinkedApart(qs: seq<nat>, vs: seq<Order>, cells: map<nat, OrderNode>, i: nat, j: nat)
    requires Linked(qs, vs, cells) && i < j < |qs|
    ensures qs[i] != qs[j]
    decreases i
  {
    LinkedAt(qs, vs, cells, i);
    LinkedAt(qs, vs, cells, j);
    if i > 0 {
      LinkedApart(qs, vs, cells, i - 1, j - 1);
    }
  }

  /** One price level: a non-empty list whose header matches it, owned by this level. */
  ghost predicate LevelValid(l: LevelList, qs: seq<nat>, vs: seq<Order>, side: Side, p: int,
                             cells: map<nat, OrderNode>, owner: map<nat, Place>)
  {
    qs != [] &&
    l == LevelList(Some(qs[0]), Some(qs[|qs| - 1]), |qs|) &&
    Linked(qs, vs, cells) &&
    (forall i :: 0 <= i < |qs| ==> qs[i] in owner && owner[qs[i]] == Place(side, p)) &&
    (forall i :: 0 <= i < |vs| ==> vs[i].price == p && vs[i].side == side)
  }

  ghost predicate SideValid(levels: map<int, LevelList>, q: map<int, seq<nat>>, v: map<int, seq<Order>>,
                            side: Side, cells: map<nat, OrderNode>, owner: map<nat, Place>)
  {
    levels.Keys == q.Keys == v.Keys &&
    forall p :: p in q ==> LevelValid(levels[p], q[p], v[p], side, p, cells, owner)
  }

  /** `cells` and `owner` change only at slots owned by `pl` (or at new slots). */
  ghost predicate SameOutside(pl: Place, cells: map<nat, OrderNode>, owner: map<nat, Place>,
                              cells': map<nat, OrderNode>, owner': map<nat, Place>)
  {
    forall t :: t in owner && t in cells && owner[t] != pl ==>
      t in cells' && cells'[t] == cells[t] && t in owner' && owner'[t] == owner[t]
  }

  lemma LevelFrame(l: LevelList, qs: seq<nat>, vs: seq<Order>, side: Side, p: int, pl: Place,
                   cells: map<nat, OrderNode>, owner: map<nat, Place>,
                   cells': map<nat, OrderNode>, owner': map<nat, Place>)
    requires LevelValid(l, qs, vs, side, p, cells, owner)
    requires pl != Place(side, p) && SameOutside(pl, cells, owner, cells', owner')
    ensures LevelValid(l, qs, vs, side, p, cells', owner')
  {
    forall i | 0 <= i < |qs|
      ensures qs[i] in cells' && cells'[qs[i]] == OrderNode(vs[i], Succ(qs, i), Pred(qs, i))
      ensures qs[i] in owner' && owner'[qs[i]] == Place(side, p)
    {
      LinkedAt(qs, vs, cells, i);
      assert qs[i] in owner && owner[qs[i]] == Place(side, p);
    }
  }

  /** Every level other than `pl` survives a change confined to the slots of `pl`. */
  lemma SideFrame(levels: map<int, LevelList>, q: map<int, seq<nat>>, v: map<int, seq<Order>>, side: Side,
                  pl: Place, cells: map<nat, OrderNode>, owner: map<nat, Place>,
                  cells': map<nat, OrderNode>, owner': map<nat, Place>)
    requires SideValid(levels, q, v, side, cells, owner)
    requires SameOutside(pl, cells, owner, cells', owner')
    ensures forall p :: p in q && Place(side, p) != pl ==> LevelValid(levels[p], q[p], v[p], side, p, cells', owner')
  {
    forall p | p in q && Place(side, p) != pl
      ensures LevelValid(levels[p], q[p], v[p], side, p, cells', owner')
    {
      LevelFrame(levels[p], q[p], v[p], side, p, pl, cells, owner, cells', owner');
    }
  }

  /** A fresh slot appended at the tail keeps the level valid. */
  lemma LevelAppend(l: LevelList, qs: seq<nat>, vs: seq<Order>, side: Side, p: int,
                    cells: map<nat, OrderNode>, owner: map<nat, Place>,
                    s: nat, o: Order, cells': map<nat, OrderNode>, owner': map<nat, Place>)
    requires LevelValid(l, qs, vs, side, p, cells, owner)
    requires s !in cells && o.price == p && o.side == side
    requires owner' == owner[s := Place(side, p)]
    requires var t := qs[|qs| - 1];
      s in cells' && cells'[s] == OrderNode(o, None, Some(t)) &&
      t in cells && t in cells' && cells'[t] == cells[t].(next := Some(s)) &&
      forall x :: x in cells && x != t ==> x in cells' && cells'[x] == cells[x]
    ensures LevelValid(LevelList(l.head, Some(s), l.count + 1), qs + [s], vs + [o], side, p, cells', owner')
  {
    var qs', vs' := qs + [s], vs + [o];
    var n := |qs|;
    LinkedDistinct(qs, vs, cells);
    forall i | 0 <= i < |qs'|
      ensures qs'[i] in cells' && cells'[qs'[i]] == OrderNode(vs'[i], Succ(qs', i), Pred(qs', i))
    {
      if i < n {
        assert qs'[i] == qs[i] && vs'[i] == vs[i];
        LinkedAt(qs, vs, cells, i);
        if i < n - 1 {
          assert qs[i] != qs[n - 1];
        }
      }
    }
  }

  /** A fresh slot on its own makes a new level. */
  lemma LevelSingleton(side: Side, p: int, s: nat, o: Order,
                       cells': map<nat, OrderNode>, owner': map<nat, Place>)
    requires o.price == p && o.side == side
    requires s in cells' && cells'[s] == OrderNode(o, None, None)
    requires s in owner' && owner'[s] == Place(side, p)
    ensures LevelValid(LevelList(Some(s), Some(s), 1), [s], [o], side, p, cells', owner')
  {
  }

  /** Unlinking the slot at position `k` (the code of `remove_from_price_level`) keeps the rest a valid level. */
  lemma LevelUnlink(l: LevelList, qs: seq<nat>, vs: seq<Order>, side: Side, p: int,
                    cells: map<nat, OrderNode>, owner: map<nat, Place>, k: nat,
                    cells': map<nat, OrderNode>, owner': map<nat, Place>)
    requires LevelValid(l, qs, vs, side, p, cells, owner) && k < |qs| && |qs| > 1
    requires owner' == owner - {qs[k]}
    requires UnlinkedCells(qs, k, cells, cells')
    ensures LevelValid(UnlinkHeader(l, qs, k), Without(qs, k), Without(vs, k), side, p, cells', owner')
  {
    var qs', vs' := Without(qs, k), Without(vs, k);
    UnlinkLinked(qs, vs, cells, k, cells');
    LinkedDistinct(qs, vs, cells);
    forall i | 0 <= i < |qs'| ensures qs'[i] in owner' && owner'[qs'[i]] == Place(side, p) {
      var j := if i < k then i else i + 1;
      assert qs'[i] == qs[j] && qs[j] != qs[k];
    }
    forall i | 0 <= i < |vs'| ensures vs'[i].price == p && vs'[i].side == side {
      var j := if i < k then i else i + 1;
      assert vs'[i] == vs[j];
    }
  }

  /** What unlinking slot `qs[k]` does to the arena: its neighbours are spliced together. */
  ghost predicate UnlinkedCells(qs: seq<nat>, k: nat, cells: map<nat, OrderNode>, cells': map<nat, OrderNode>)
    requires k < |qs|
  {
    var a := Pred(qs, k);
    var b := Succ(qs, k);
    (forall x :: x in cells && x != qs[k] && Some(x) != a && Some(x) != b ==> x in cells' && cells'[x] == cells[x]) &&
    (a.Some? ==> a.value in cells && a.value in cells' && cells'[a.value] == cells[a.value].(next := b)) &&
    (b.Some? ==> b.value in cells && b.value in cells' && cells'[b.value] == cells[b.value].(prev := a))
  }

  lemma UnlinkLinked(qs: seq<nat>, vs: seq<Order>, cells: map<nat, OrderNode>, k: nat, cells': map<nat, OrderNode>)
    requires Linked(qs, vs, cells) && k < |qs|
    requires UnlinkedCells(qs, k, cells, cells')
    ensures Linked(Without(qs, k), Without(vs, k), cells')
  {
    LinkedDistinct(qs, vs, cells);
    var qs', vs' := Without(qs, k), Without(vs, k);
    forall i | 0 <= i < |qs'|
      ensures qs'[i] in cells' && cells'[qs'[i]] == OrderNode(vs'[i], Succ(qs', i), Pred(qs', i))
    {
      UnlinkAt(qs, vs, cells, k, cells', i);
    }
  }

  lemma UnlinkAt(qs: seq<nat>, vs: seq<Order>, cells: map<nat, OrderNode>, k: nat, cells': map<nat, OrderNode>, i: nat)
    requires Linked(qs, vs, cells) && Distinct(qs) && k < |qs|
    requires UnlinkedCells(qs, k, cells, cells')
    requires i < |qs| - 1
    ensures var qs', vs' := Without(qs, k), Without(vs, k);
      qs'[i] in cells' && cells'[qs'[i]] == OrderNode(vs'[i], Succ(qs', i), Pred(qs', i))
  {
    var qs', vs' := Without(qs, k), Without(vs, k);
    var a, b := Pred(qs, k), Succ(qs, k);
    var j := if i < k then i else i + 1;
    assert qs'[i] == qs[j] && vs'[i] == vs[j];
    LinkedAt(qs, vs, cells, j);
    assert qs[j] != qs[k];
    if k > 0 && j == k - 1 {
      UnlinkNeighbour(qs, vs, cells, k, cells', j);
    } else if j == k + 1 {
      UnlinkNeighbour(qs, vs, cells, k, cells', j);
    } else {
      if a.Some? { assert qs[j] != qs[k - 1]; }
      if b.Some? { assert qs[j] != qs[k + 1]; }
      assert cells'[qs[j]] == cells[qs[j]];
    }
  }

  lemma UnlinkNeighbour(qs: seq<nat>, vs: seq<Order>, cells: map<nat, OrderNode>, k: nat,
                        cells': map<nat, OrderNode>, j: nat)
    requires Linked(qs, vs, cells) && Distinct(qs) && k < |qs|
    requires UnlinkedCells(qs, k, cells, cells')
    requires j + 1 == k || j == k + 1
    requires j < |qs|
    ensures var i := if j < k then j else j - 1;
      qs[j] in cells' && cells'[qs[j]] == OrderNode(vs[j], Succ(Without(qs, k), i), Pred(Without(qs, k), i))
  {
    LinkedAt(qs, vs, cells, j);
    var qs' := Without(qs, k);
    if j + 1 == k {
      if k + 1 < |qs| { assert qs[j] != qs[k + 1]; }
    } else {
      if k > 0 { assert qs[j] != qs[k - 1]; }
    }
  }

  /**
   * The header after `remove_from_price_level` unlinked a node with links
   * `prev` and `next`: a node without a predecessor was the head, one
   * without a successor the tail.
   */
  function HeaderWithout(l: LevelList, prev: Link, next: Link): LevelList
    requires l.count > 0
  {
    LevelList(if prev == None then next else l.head, if next == None then prev else l.tail, l.count - 1)
  }

  /** The header after unlinking position `k` of the queue `qs`. */
  function UnlinkHeader(l: LevelList, qs: seq<nat>, k: nat): LevelList
    requires k < |qs| && l.count > 0
  {
    HeaderWithout(l, Pred(qs, k), Succ(qs, k))
  }

  /** Overwriting the order in one slot keeps the level valid. */
  lemma LevelUpdate(l: LevelList, qs: seq<nat>, vs: seq<Order>, side: Side, p: int,
                    cells: map<nat, OrderNode>, owner: map<nat, Place>, k: nat, o: Order,
                    cells': map<nat, OrderNode>)
    requires LevelValid(l, qs, vs, side, p, cells, owner) && k < |qs|
    requires o.price == p && o.side == side
    requires qs[k] in cells && cells' == cells[qs[k] := cells[qs[k]].(order := o)]
    ensures LevelValid(l, qs, vs[k := o], side, p, cells', owner)
  {
    var vs' := vs[k := o];
    LinkedDistinct(qs, vs, cells);
    forall i | 0 <= i < |qs|
      ensures qs[i] in cells' && cells'[qs[i]] == OrderNode(vs'[i], Succ(qs, i), Pred(qs, i))
    {
      LinkedAt(qs, vs, cells, i);
      if i != k { assert qs[i] != qs[k]; }
    }
    assert Linked(qs, vs', cells');
    forall i | 0 <= i < |vs'| ensures vs'[i].price == p && vs'[i].side == side {
      if i != k { assert vs'[i] == vs[i]; }
    }
  }

  lemma LinkedAt(qs: seq<nat>, vs: seq<Order>, cells: map<nat, OrderNode>, i: nat)
    requires Linked(qs, vs, cells) && i < |qs|
    ensures qs[i] in cells && cells[qs[i]] == OrderNode(vs[i], Succ(qs, i), Pred(qs, i))
  {
  }

  /** The position of a slot in a queue. */
  ghost function PositionOf(qs: seq<nat>, s: nat): (k: nat)
    requires s in qs
    ensures k < |qs| && qs[k] == s
  {
    var k :| 0 <= k < |qs| && qs[k] == s; k
  }

  lemma PositionUnique(qs: seq<nat>, k: nat)
    requires Distinct(qs) && k < |qs|
    ensures PositionOf(qs, qs[k]) == k
  {
  }

  // ---------------------------------------------------------------------
  // The whole representation as a value

  /** The storage's fields (and its allocator's cells) together with the ghost bookkeeping. */
  datatype Rep = Rep(
    cells: map<nat, OrderNode>,
    owner: map<nat, Place>,
    buyLevels: map<int, LevelList>,
    sellLevels: map<int, LevelList>,
    buyQ: map<int, seq<nat>>,
    sellQ: map<int, seq<nat>>,
    bids: map<int, seq<Order>>,
    asks: map<int, seq<Order>>,
    index: map<U64, nat>,
    total: nat)

  function LevelsOf(r: Rep, side: Side): map<int, LevelList> {
    if side == Buy then r.buyLevels else r.sellLevels
  }

  function QOf(r: Rep, side: Side): map<int, seq<nat>> {
    if side == Buy then r.buyQ else r.sellQ
  }

  function VOf(r: Rep, side: Side): map<int, seq<Order>> {
    if side == Buy then r.bids else r.asks
  }

  function ViewOf(r: Rep): BookView {
    BookView(r.bids, r.asks)
  }

  /** The slot `s` sits in the queue of the level that owns it. */
  ghost predicate Placed(r: Rep, s: nat) {
    s in r.owner &&
    var pl := r.owner[s];
    pl.price in QOf(r, pl.side) && s in QOf(r, pl.side)[pl.price]
  }

  /** The index maps each resting order's id to its slot, and nothing else. */
  ghost predicate IndexValid(index: map<U64, nat>, cells: map<nat, OrderNode>) {
    (forall id :: id in index ==> index[id] in cells && cells[index[id]].order.id == id) &&
    (forall s :: s in cells ==> cells[s].order.id in index && index[cells[s].order.id] == s)
  }

  ghost predicate RepValid(r: Rep) {
    SideValid(r.buyLevels, r.buyQ, r.bids, Buy, r.cells, r.owner) &&
    SideValid(r.sellLevels, r.sellQ, r.asks, Sell, r.cells, r.owner) &&
    r.owner.Keys == r.cells.Keys &&
    (forall s :: s in r.owner ==> Placed(r, s)) &&
    IndexValid(r.index, r.cells) &&
    r.total == |r.index| == |r.owner| == SumSizes(r.bids) + SumSizes(r.asks)
  }

  // The storage's methods carry the invariant sealed (see `Sealed` in module
  // Common) as `Inv`; the lemmas below open it with `Unseal` and close it
  // with `Seal`.

  ghost predicate Inv(r: Rep) {
    forall k {:trigger Sealed(r, k)} :: Sealed(r, k) ==> RepValid(r)
  }

  lemma Unseal(r: Rep)
    requires Inv(r)
    ensures RepValid(r)
  {
    assert Sealed(r, 0);
  }

  lemma Seal(r: Rep)
    requires RepValid(r)
    ensures Inv(r)
  {
  }

  /** The sizes the invariant ties together: slots, owners, ids and queued orders. */
  lemma Counts(r: Rep)
    requires Inv(r)
    ensures r.owner.Keys == r.cells.Keys && r.total == |r.index| == |r.owner| == |r.cells|
    ensures r.total == SumSizes(r.bids) + SumSizes(r.asks)
    ensures LevelsOf(r, Buy).Keys == r.bids.Keys && LevelsOf(r, Sell).Keys == r.asks.Keys
    ensures IndexValid(r.index, r.cells)
  {
    Unseal(r);
    SideValidOf(r, Buy);
    SideValidOf(r, Sell);
    assert |r.owner| == |r.owner.Keys| == |r.cells.Keys| == |r.cells|;
  }

  /** One side of the invariant, for the storage's read-only walks. */
  lemma SideOfInv(r: Rep, side: Side)
    requires Inv(r)
    ensures SideValid(LevelsOf(r, side), QOf(r, side), VOf(r, side), side, r.cells, r.owner)
  {
    Unseal(r);
    SideValidOf(r, side);
  }

  /** What a walk over one side's price map needs: each level's header and its linked list. */
  ghost predicate Walkable(levels: map<int, LevelList>, q: map<int, seq<nat>>, v: map<int, seq<Order>>,
                           cells: map<nat, OrderNode>)
  {
    levels.Keys == v.Keys && q.Keys == v.Keys &&
    forall p :: p in q ==>
      q[p] != [] && levels[p].head == Some(q[p][0]) && levels[p].count == |v[p]| && Linked(q[p], v[p], cells)
  }

  lemma WalkableOf(r: Rep, side: Side)
    requires Inv(r)
    ensures Walkable(LevelsOf(r, side), QOf(r, side), VOf(r, side), r.cells)
  {
    SideOfInv(r, side);
  }

  lemma WalkableAt(levels: map<int, LevelList>, q: map<int, seq<nat>>, v: map<int, seq<Order>>,
                   cells: map<nat, OrderNode>, p: int)
    requires Walkable(levels, q, v, cells) && p in levels
    ensures p in q && p in v && q[p] != [] && levels[p].head == Some(q[p][0]) && levels[p].count == |v[p]|
    ensures Linked(q[p], v[p], cells)
  {
  }

  /** Dropping a level leaves the rest walkable. */
  lemma WalkableDrop(levels: map<int, LevelList>, q: map<int, seq<nat>>, v: map<int, seq<Order>>,
                     cells: map<nat, OrderNode>, p: int)
    requires Walkable(levels, q, v, cells)
    ensures Walkable(levels - {p}, q - {p}, v - {p}, cells)
    ensures (levels - {p}).Keys == levels.Keys - {p}
  {
  }

  lemma SideValidOf(r: Rep, side: Side)
    requires RepValid(r)
    ensures SideValid(LevelsOf(r, side), QOf(r, side), VOf(r, side), side, r.cells, r.owner)
  {
  }

  /** Where slot `s` rests. */
  ghost function LocOf(r: Rep, s: nat): (l: Loc)
    requires Placed(r, s)
    ensures l.price in QOf(r, l.side) && l.pos < |QOf(r, l.side)[l.price]| && QOf(r, l.side)[l.price][l.pos] == s
  {
    var pl := r.owner[s];
    Loc(pl.side, pl.price, PositionOf(QOf(r, pl.side)[pl.price], s))
  }

  ghost predicate SideUnchanged(r: Rep, r': Rep, side: Side) {
    LevelsOf(r', side) == LevelsOf(r, side) && QOf(r', side) == QOf(r, side) && VOf(r', side) == VOf(r, side)
  }

  /** The header, queue and view of the order's side after `add_to_price_level`. */
  ghost predicate AppendedSide(r: Rep, r': Rep, o: Order, s: nat) {
    var side, p := o.side, o.price;
    var l := LevelsOf(r, side);
    LevelsOf(r', side) ==
      l[p := if p in l then LevelList(l[p].head, Some(s), l[p].count + 1) else LevelList(Some(s), Some(s), 1)] &&
    QOf(r', side) == QOf(r, side)[p := (if p in QOf(r, side) then QOf(r, side)[p] else []) + [s]] &&
    VOf(r', side) == Enqueue(VOf(r, side), o) &&
    SideUnchanged(r, r', Opposite(side))
  }

  /** The arena after `add_to_price_level` linked the new slot `s` behind the level's tail. */
  ghost predicate AppendedCells(r: Rep, r': Rep, o: Order, s: nat) {
    var q := QOf(r, o.side);
    r'.cells.Keys == r.cells.Keys + {s} &&
    if o.price in q && q[o.price] != [] then
      var t := q[o.price][|q[o.price]| - 1];
      t in r.cells && r'.cells[s] == OrderNode(o, None, Some(t)) &&
      r'.cells[t] == r.cells[t].(next := Some(s)) &&
      forall x :: x in r.cells && x != t ==> r'.cells[x] == r.cells[x]
    else
      r'.cells[s] == OrderNode(o, None, None) &&
      forall x :: x in r.cells ==> r'.cells[x] == r.cells[x]
  }

  /** The hypotheses of `add_order_impl` after its duplicate check: a fresh slot joins the tail of its level. */
  ghost predicate AddStep(r: Rep, o: Order, s: nat, r': Rep) {
    RepValid(r) && s !in r.cells && o.id !in r.index &&
    AppendedCells(r, r', o, s) && AppendedSide(r, r', o, s) &&
    r'.owner == r.owner[s := Place(o.side, o.price)] &&
    r'.index == r.index[o.id := s] && r'.total == r.total + 1
  }

  lemma AddValid(r: Rep, o: Order, s: nat, r': Rep)
    requires AddStep(r, o, s, r')
    ensures RepValid(r')
    ensures ViewOf(r') == AddToView(ViewOf(r), o)
  {
    AddSides(r, o, s, r');
    AddRest(r, o, s, r');
    AddView(r, o, s, r');
  }

  lemma AddView(r: Rep, o: Order, s: nat, r': Rep)
    requires AppendedSide(r, r', o, s)
    ensures ViewOf(r') == AddToView(ViewOf(r), o)
  {
    if o.side == Buy {} else {}
  }

  lemma AddSides(r: Rep, o: Order, s: nat, r': Rep)
    requires AddStep(r, o, s, r')
    ensures SideValid(r'.buyLevels, r'.buyQ, r'.bids, Buy, r'.cells, r'.owner)
    ensures SideValid(r'.sellLevels, r'.sellQ, r'.asks, Sell, r'.cells, r'.owner)
  {
    var side := o.side;
    var os := Opposite(side);
    TailOwned(r, side, o.price);
    AddSameOutside(r, o, s, r');
    AddSideOf(r, o, s, r');
    SideValidOf(r, os);
    SideFrame(LevelsOf(r, os), QOf(r, os), VOf(r, os), os, Place(side, o.price), r.cells, r.owner, r'.cells, r'.owner);
    SidesValid(r', side);
  }

  lemma AddRest(r: Rep, o: Order, s: nat, r': Rep)
    requires AddStep(r, o, s, r')
    ensures r'.owner.Keys == r'.cells.Keys
    ensures forall x :: x in r'.owner ==> Placed(r', x)
    ensures IndexValid(r'.index, r'.cells)
    ensures r'.total == |r'.index| == |r'.owner| == SumSizes(r'.bids) + SumSizes(r'.asks)
  {
    AddPlaced(r, o, s, r');
    AddOrdersKept(r, o, s, r');
    AddIndex(r.index, r.cells, o, s, r'.index, r'.cells);
    AddCount(r, o, s, r');
    OwnerKeysAdd(r.owner, r.cells, s, Place(o.side, o.price), r'.cells);
  }

  /** Linking the new slot changes no stored order. */
  lemma AddOrdersKept(r: Rep, o: Order, s: nat, r': Rep)
    requires AppendedCells(r, r', o, s)
    ensures r'.cells.Keys == r.cells.Keys + {s} && r'.cells[s].order == o
    ensures forall x :: x in r.cells ==> r'.cells[x].order == r.cells[x].order
  {
  }

  /** Both sides of `r` are valid once the side `side` and its opposite are. */
  lemma SidesValid(r: Rep, side: Side)
    requires SideValid(LevelsOf(r, side), QOf(r, side), VOf(r, side), side, r.cells, r.owner)
    requires LevelsOf(r, Opposite(side)).Keys == QOf(r, Opposite(side)).Keys == VOf(r, Opposite(side)).Keys
    requires forall p :: p in QOf(r, Opposite(side)) ==>
      LevelValid(LevelsOf(r, Opposite(side))[p], QOf(r, Opposite(side))[p], VOf(r, Opposite(side))[p],
                 Opposite(side), p, r.cells, r.owner)
    ensures SideValid(r.buyLevels, r.buyQ, r.bids, Buy, r.cells, r.owner)
    ensures SideValid(r.sellLevels, r.sellQ, r.asks, Sell, r.cells, r.owner)
  {
    if side == Buy {} else {}
  }

  lemma AddSideOf(r: Rep, o: Order, s: nat, r': Rep)
    requires AddStep(r, o, s, r')
    requires SameOutside(Place(o.side, o.price), r.cells, r.owner, r'.cells, r'.owner)
    ensures SideValid(LevelsOf(r', o.side), QOf(r', o.side), VOf(r', o.side), o.side, r'.cells, r'.owner)
    ensures LevelsOf(r', Opposite(o.side)) == LevelsOf(r, Opposite(o.side))
    ensures QOf(r', Opposite(o.side)) == QOf(r, Opposite(o.side))
    ensures VOf(r', Opposite(o.side)) == VOf(r, Opposite(o.side))
  {
    var side, p := o.side, o.price;
    var q := QOf(r, side);
    SideValidOf(r, side);
    if p in q {
      assert LevelValid(LevelsOf(r, side)[p], q[p], VOf(r, side)[p], side, p, r.cells, r.owner);
    }
    AddSide(LevelsOf(r, side), q, VOf(r, side), side, r.cells, r.owner, o, s,
            LevelsOf(r', side), QOf(r', side), VOf(r', side), r'.cells, r'.owner);
  }

  lemma AddSameOutside(r: Rep, o: Order, s: nat, r': Rep)
    requires AppendedCells(r, r', o, s)
    requires r'.owner == r.owner[s := Place(o.side, o.price)] && s !in r.cells
    requires var q := QOf(r, o.side);
      o.price in q ==> q[o.price] != [] && q[o.price][|q[o.price]| - 1] in r.owner &&
                       r.owner[q[o.price][|q[o.price]| - 1]] == Place(o.side, o.price)
    ensures SameOutside(Place(o.side, o.price), r.cells, r.owner, r'.cells, r'.owner)
  {
  }

  /** The last slot of a level belongs to that level. */
  lemma TailOwned(r: Rep, side: Side, p: int)
    requires RepValid(r)
    ensures var q := QOf(r, side);
      p in q ==> q[p] != [] && q[p][|q[p]| - 1] in r.owner && r.owner[q[p][|q[p]| - 1]] == Place(side, p)
  {
    SideValidOf(r, side);
    var q := QOf(r, side);
    if p in q {
      assert LevelValid(LevelsOf(r, side)[p], q[p], VOf(r, side)[p], side, p, r.cells, r.owner);
    }
  }

  /** The side that receives the order stays valid. */
  lemma AddSide(levels: map<int, LevelList>, q: map<int, seq<nat>>, v: map<int, seq<Order>>, side: Side,
                cells: map<nat, OrderNode>, owner: map<nat, Place>, o: Order, s: nat,
                levels': map<int, LevelList>, q': map<int, seq<nat>>, v': map<int, seq<Order>>,
                cells': map<nat, OrderNode>, owner': map<nat, Place>)
    requires SideValid(levels, q, v, side, cells, owner)
    requires o.side == side && s !in cells
    requires SameOutside(Place(side, o.price), cells, owner, cells', owner')
    requires owner' == owner[s := Place(side, o.price)]
    requires var p := o.price;
      levels' == levels[p := if p in levels then LevelList(levels[p].head, Some(s), levels[p].count + 1)
                             else LevelList(Some(s), Some(s), 1)] &&
      q' == q[p := (if p in q then q[p] else []) + [s]] &&
      v' == Enqueue(v, o)
    requires var p := o.price;
      if p in q && q[p] != [] then
        var t := q[p][|q[p]| - 1];
        t in cells && s in cells' && cells'[s] == OrderNode(o, None, Some(t)) &&
        t in cells' && cells'[t] == cells[t].(next := Some(s)) &&
        forall x :: x in cells && x != t ==> x in cells' && cells'[x] == cells[x]
      else
        s in cells' && cells'[s] == OrderNode(o, None, None)
    ensures SideValid(levels', q', v', side, cells', owner')
  {
    var p := o.price;
    SideFrame(levels, q, v, side, Place(side, p), cells, owner, cells', owner');
    if p in q {
      LevelAppend(levels[p], q[p], v[p], side, p, cells, owner, s, o, cells', owner');
    } else {
      LevelSingleton(side, p, s, o, cells', owner');
    }
  }

  lemma AddPlaced(r: Rep, o: Order, s: nat, r': Rep)
    requires forall x :: x in r.owner ==> Placed(r, x)
    requires r'.owner == r.owner[s := Place(o.side, o.price)] && s !in r.owner
    requires QOf(r', o.side) == QOf(r, o.side)[o.price := (if o.price in QOf(r, o.side) then QOf(r, o.side)[o.price] else []) + [s]]
    requires QOf(r', Opposite(o.side)) == QOf(r, Opposite(o.side))
    ensures forall x :: x in r'.owner ==> Placed(r', x)
  {
    forall x | x in r'.owner ensures Placed(r', x) {
      if x != s {
        assert Placed(r, x);
        var pl := r.owner[x];
        if pl.side == o.side {
          assert x in QOf(r', pl.side)[pl.price];
        } else {
          assert pl.side == Opposite(o.side);
        }
      }
    }
  }

  lemma AddIndex(index: map<U64, nat>, cells: map<nat, OrderNode>, o: Order, s: nat,
                 index': map<U64, nat>, cells': map<nat, OrderNode>)
    requires IndexValid(index, cells) && s !in cells && o.id !in index
    requires cells'.Keys == cells.Keys + {s} && cells'[s].order == o
    requires forall x :: x in cells ==> cells'[x].order == cells[x].order
    requires index' == index[o.id := s]
    ensures IndexValid(index', cells')
  {
    forall id | id in index' ensures index'[id] in cells' && cells'[index'[id]].order.id == id {
      if id != o.id {
        assert index[id] in cells;
      }
    }
  }

  lemma AddCount(r: Rep, o: Order, s: nat, r': Rep)
    requires r.total == |r.index| == |r.owner| == SumSizes(r.bids) + SumSizes(r.asks)
    requires s !in r.owner && o.id !in r.index
    requires r'.owner == r.owner[s := Place(o.side, o.price)]
    requires r'.index == r.index[o.id := s] && r'.total == r.total + 1
    requires VOf(r', o.side) == Enqueue(VOf(r, o.side), o) && VOf(r', Opposite(o.side)) == VOf(r, Opposite(o.side))
    ensures r'.total == |r'.index| == |r'.owner| == SumSizes(r'.bids) + SumSizes(r'.asks)
  {
    var side, p := o.side, o.price;
    var v := VOf(r, side);
    SumSizesUpdate(v, p, (if p in v then v[p] else []) + [o]);
    if side == Buy {} else {}
  }

  // ---------------------------------------------------------------------
  // remove_order_impl on values

  /** Facts about the slot `s` that a valid representation provides. */
  lemma SlotFacts(r: Rep, s: nat)
    requires RepValid(r) && s in r.cells
    ensures Placed(r, s)
    ensures var l := LocOf(r, s);
      l.price in LevelsOf(r, l.side) && l.price in VOf(r, l.side) &&
      r.owner[s] == Place(l.side, l.price) &&
      LevelValid(LevelsOf(r, l.side)[l.price], QOf(r, l.side)[l.price], VOf(r, l.side)[l.price],
                 l.side, l.price, r.cells, r.owner)
  {
    assert Placed(r, s);
    var l := LocOf(r, s);
    SideValidOf(r, l.side);
  }

  /** The order stored in slot `s` is the one the view shows at the slot's location. */
  lemma SlotOrder(r: Rep, s: nat)
    requires RepValid(r) && s in r.cells
    ensures Placed(r, s)
    ensures var l := LocOf(r, s);
      l.price in VOf(r, l.side) && l.pos < |VOf(r, l.side)[l.price]| &&
      VOf(r, l.side)[l.price][l.pos] == r.cells[s].order
  {
    SlotFacts(r, s);
    var l := LocOf(r, s);
    LinkedAt(QOf(r, l.side)[l.price], VOf(r, l.side)[l.price], r.cells, l.pos);
  }

  /** The header, queue and view of the level that held slot `s`, after `remove_from_price_level`. */
  ghost predicate RemovedSide(r: Rep, r': Rep, s: nat)
    requires Placed(r, s)
  {
    var l := LocOf(r, s);
    var side, p, k := l.side, l.price, l.pos;
    var qs := QOf(r, side)[p];
    var lv := LevelsOf(r, side);
    p in lv && p in VOf(r, side) && k < |VOf(r, side)[p]| && lv[p].count > 0 &&
    LevelsOf(r', side) == (if |qs| == 1 then lv - {p} else lv[p := UnlinkHeader(lv[p], qs, k)]) &&
    QOf(r', side) == RemoveAt(QOf(r, side), p, k) &&
    VOf(r', side) == RemoveAt(VOf(r, side), p, k) &&
    SideUnchanged(r, r', Opposite(side))
  }

  /** The arena after the neighbours of slot `s` were spliced together and `s` was destroyed. */
  ghost predicate RemovedCells(r: Rep, r': Rep, s: nat)
    requires Placed(r, s)
  {
    var l := LocOf(r, s);
    r'.cells.Keys == r.cells.Keys - {s} &&
    UnlinkedCells(QOf(r, l.side)[l.price], l.pos, r.cells, r'.cells)
  }

  /** The hypotheses of `remove_order_impl` once the id was found at slot `s`. */
  ghost predicate RemoveStep(r: Rep, s: nat, r': Rep) {
    RepValid(r) && s in r.cells && Placed(r, s) &&
    RemovedCells(r, r', s) && RemovedSide(r, r', s) &&
    r'.owner == r.owner - {s} &&
    r'.index == r.index - {r.cells[s].order.id} && r'.total == r.total - 1
  }

  lemma RemoveValid(r: Rep, s: nat, r': Rep)
    requires RemoveStep(r, s, r')
    ensures RepValid(r')
    ensures var l := LocOf(r, s);
      l.price in SideOf(ViewOf(r), l.side) && l.pos < |SideOf(ViewOf(r), l.side)[l.price]| &&
      ViewOf(r') == RemoveFromView(ViewOf(r), l)
  {
    RemoveSides(r, s, r');
    RemoveRest(r, s, r');
    var l := LocOf(r, s);
    RemoveView(r, r', l.side, l.price, l.pos);
  }

  lemma RemoveView(r: Rep, r': Rep, side: Side, p: int, k: nat)
    requires p in VOf(r, side) && k < |VOf(r, side)[p]|
    requires VOf(r', side) == RemoveAt(VOf(r, side), p, k) && VOf(r', Opposite(side)) == VOf(r, Opposite(side))
    ensures p in SideOf(ViewOf(r), side) && k < |SideOf(ViewOf(r), side)[p]|
    ensures ViewOf(r') == RemoveFromView(ViewOf(r), Loc(side, p, k))
  {
    if side == Buy {} else {}
  }

  lemma RemoveSides(r: Rep, s: nat, r': Rep)
    requires RemoveStep(r, s, r')
    ensures SideValid(r'.buyLevels, r'.buyQ, r'.bids, Buy, r'.cells, r'.owner)
    ensures SideValid(r'.sellLevels, r'.sellQ, r'.asks, Sell, r'.cells, r'.owner)
  {
    var l := LocOf(r, s);
    var side, p, k := l.side, l.price, l.pos;
    var os := Opposite(side);
    var qs, vs := QOf(r, side)[p], VOf(r, side)[p];
    SlotFacts(r, s);
    RemoveSameOutside(LevelsOf(r, side)[p], qs, vs, side, p, k, r.cells, r.owner, r'.cells);
    SideValidOf(r, side);
    RemoveSideOf(LevelsOf(r, side), QOf(r, side), VOf(r, side), side, p, k, r.cells, r.owner,
                 LevelsOf(r', side), QOf(r', side), VOf(r', side), r'.cells, r'.owner);
    SideValidOf(r, os);
    SideFrame(LevelsOf(r, os), QOf(r, os), VOf(r, os), os, Place(side, p), r.cells, r.owner, r'.cells, r'.owner);
    SidesValid(r', side);
  }

  lemma RemoveRest(r: Rep, s: nat, r': Rep)
    requires RemoveStep(r, s, r')
    ensures r'.owner.Keys == r'.cells.Keys
    ensures forall x :: x in r'.owner ==> Placed(r', x)
    ensures IndexValid(r'.index, r'.cells)
    ensures r'.total == |r'.index| == |r'.owner| == SumSizes(r'.bids) + SumSizes(r'.asks)
  {
    var l := LocOf(r, s);
    var side, p, k := l.side, l.price, l.pos;
    var qs := QOf(r, side)[p];
    RemovePlaced(r, r', s, side, p, k);
    UnlinkKeepsOrders(qs, k, r.cells, r'.cells);
    RemoveIndex(r.index, r.cells, s, r'.cells);
    RemoveCount(r, r', s, r.cells[s].order.id, side, p, k);
    OwnerKeysRemove(r.owner, r.cells, s, r'.cells);
  }

  lemma RemoveSameOutside(l: LevelList, qs: seq<nat>, vs: seq<Order>, side: Side, p: int, k: nat,
                          cells: map<nat, OrderNode>, owner: map<nat, Place>, cells': map<nat, OrderNode>)
    requires LevelValid(l, qs, vs, side, p, cells, owner) && k < |qs|
    requires cells'.Keys == cells.Keys - {qs[k]}
    requires UnlinkedCells(qs, k, cells, cells')
    ensures SameOutside(Place(side, p), cells, owner, cells', owner - {qs[k]})
  {
    var pl := Place(side, p);
    if k > 0 { assert owner[qs[k - 1]] == pl; }
    if k + 1 < |qs| { assert owner[qs[k + 1]] == pl; }
    forall t | t in owner && t in cells && owner[t] != pl
      ensures t in cells' && cells'[t] == cells[t] && t in owner - {qs[k]} && (owner - {qs[k]})[t] == owner[t]
    {
      assert t != qs[k];
    }
  }

  /** The side that loses the order stays valid. */
  lemma RemoveSideOf(levels: map<int, LevelList>, q: map<int, seq<nat>>, v: map<int, seq<Order>>, side: Side,
                     p: int, k: nat, cells: map<nat, OrderNode>, owner: map<nat, Place>,
                     levels': map<int, LevelList>, q': map<int, seq<nat>>, v': map<int, seq<Order>>,
                     cells': map<nat, OrderNode>, owner': map<nat, Place>)
    requires SideValid(levels, q, v, side, cells, owner)
    requires p in q && p in levels && p in v && k < |q[p]| && k < |v[p]| && levels[p].count > 0
    requires SameOutside(Place(side, p), cells, owner, cells', owner')
    requires owner' == owner - {q[p][k]}
    requires UnlinkedCells(q[p], k, cells, cells')
    requires levels' == (if |q[p]| == 1 then levels - {p} else levels[p := UnlinkHeader(levels[p], q[p], k)])
    requires q' == RemoveAt(q, p, k) && v' == RemoveAt(v, p, k)
    ensures SideValid(levels', q', v', side, cells', owner')
  {
    SideFrame(levels, q, v, side, Place(side, p), cells, owner, cells', owner');
    assert LevelValid(levels[p], q[p], v[p], side, p, cells, owner);
    if |q[p]| > 1 {
      LevelUnlink(levels[p], q[p], v[p], side, p, cells, owner, k, cells', owner');
    }
  }

  lemma RemovePlaced(r: Rep, r': Rep, s: nat, side: Side, p: int, k: nat)
    requires forall x :: x in r.owner ==> Placed(r, x)
    requires p in QOf(r, side) && k < |QOf(r, side)[p]| && QOf(r, side)[p][k] == s
    requires r'.owner == r.owner - {s}
    requires QOf(r', side) == RemoveAt(QOf(r, side), p, k) && QOf(r', Opposite(side)) == QOf(r, Opposite(side))
    ensures forall x :: x in r'.owner ==> Placed(r', x)
  {
    var qs := QOf(r, side)[p];
    forall x | x in r'.owner ensures Placed(r', x) {
      assert Placed(r, x);
      var pl := r.owner[x];
      if pl == Place(side, p) {
        var j :| 0 <= j < |qs| && qs[j] == x;
        assert j != k;
        assert |qs| > 1;
        var j' := if j < k then j else j - 1;
        assert Without(qs, k)[j'] == x;
      } else if pl.side == side {
        assert QOf(r', side)[pl.price] == QOf(r, side)[pl.price];
      } else {
        assert pl.side == Opposite(side);
      }
    }
  }

  /** Splicing the neighbours together changes only their links. */
  lemma UnlinkKeepsOrders(qs: seq<nat>, k: nat, cells: map<nat, OrderNode>, cells': map<nat, OrderNode>)
    requires k < |qs| && UnlinkedCells(qs, k, cells, cells')
    ensures forall x :: x in cells && x in cells' && x != qs[k] ==> cells'[x].order == cells[x].order
  {
  }

  lemma RemoveIndex(index: map<U64, nat>, cells: map<nat, OrderNode>, s: nat, cells': map<nat, OrderNode>)
    requires IndexValid(index, cells) && s in cells
    requires cells'.Keys == cells.Keys - {s}
    requires forall x :: x in cells && x in cells' && x != s ==> cells'[x].order == cells[x].order
    ensures IndexValid(index - {cells[s].order.id}, cells')
  {
    var id := cells[s].order.id;
    var index' := index - {id};
    forall i | i in index' ensures index'[i] in cells' && cells'[index'[i]].order.id == i {
      assert index[i] in cells && index[i] != s;
    }
  }

  lemma RemoveCount(r: Rep, r': Rep, s: nat, id: U64, side: Side, p: int, k: nat)
    requires r.total == |r.index| == |r.owner| == SumSizes(r.bids) + SumSizes(r.asks)
    requires id in r.index && s in r.owner
    requires r'.owner == r.owner - {s} && r'.index == r.index - {id} && r'.total == r.total - 1
    requires p in VOf(r, side) && k < |VOf(r, side)[p]|
    requires VOf(r', side) == RemoveAt(VOf(r, side), p, k) && VOf(r', Opposite(side)) == VOf(r, Opposite(side))
    ensures r'.total == |r'.index| == |r'.owner| == SumSizes(r'.bids) + SumSizes(r'.asks)
  {
    var v := VOf(r, side);
    if |v[p]| == 1 {
      SumSizesRemove(v, p);
    } else {
      SumSizesUpdate(v, p, Without(v[p], k));
    }
    if side == Buy {} else {}
  }

  // ---------------------------------------------------------------------
  // Writing an order through its `Order*` into its slot

  /** The order in slot `s` is overwritten by `o`, which keeps the id, price and side. */
  ghost predicate UpdateStep(r: Rep, s: nat, o: Order, r': Rep) {
    RepValid(r) && s in r.cells && Placed(r, s) &&
    var l := LocOf(r, s);
    o.id == r.cells[s].order.id && o.price == l.price && o.side == l.side &&
    l.price in VOf(r, l.side) && l.pos < |VOf(r, l.side)[l.price]| &&
    r'.cells == r.cells[s := r.cells[s].(order := o)] &&
    VOf(r', l.side) == UpdateAt(VOf(r, l.side), l.price, l.pos, o) &&
    VOf(r', Opposite(l.side)) == VOf(r, Opposite(l.side)) &&
    r'.owner == r.owner && r'.buyLevels == r.buyLevels && r'.sellLevels == r.sellLevels &&
    r'.buyQ == r.buyQ && r'.sellQ == r.sellQ && r'.index == r.index && r'.total == r.total
  }

  lemma UpdateValid(r: Rep, s: nat, o: Order, r': Rep)
    requires UpdateStep(r, s, o, r')
    ensures RepValid(r')
    ensures var l := LocOf(r, s);
      l.price in SideOf(ViewOf(r), l.side) && l.pos < |SideOf(ViewOf(r), l.side)[l.price]| &&
      ViewOf(r') == UpdateInView(ViewOf(r), l, o)
    ensures Placed(r', s) && LocOf(r', s) == LocOf(r, s)
  {
    UpdateSides(r, s, o, r');
    UpdateRest(r, s, o, r');
    var l := LocOf(r, s);
    UpdateView(r, r', l.side, l.price, l.pos, o);
  }

  lemma UpdateSides(r: Rep, s: nat, o: Order, r': Rep)
    requires UpdateStep(r, s, o, r')
    ensures SideValid(r'.buyLevels, r'.buyQ, r'.bids, Buy, r'.cells, r'.owner)
    ensures SideValid(r'.sellLevels, r'.sellQ, r'.asks, Sell, r'.cells, r'.owner)
  {
    var l := LocOf(r, s);
    var side, p, k := l.side, l.price, l.pos;
    var os := Opposite(side);
    var pl := Place(side, p);
    SlotFacts(r, s);
    UpdateSameOutside(r.cells, r.owner, s, pl, o);
    SideValidOf(r, side);
    UpdateSide(LevelsOf(r, side), QOf(r, side), VOf(r, side), side, p, k, o, r.cells, r.owner, r'.cells);
    SideValidOf(r, os);
    SideFrame(LevelsOf(r, os), QOf(r, os), VOf(r, os), os, pl, r.cells, r.owner, r'.cells, r'.owner);
    SidesValid(r', side);
  }

  lemma UpdateRest(r: Rep, s: nat, o: Order, r': Rep)
    requires UpdateStep(r, s, o, r')
    ensures r'.owner.Keys == r'.cells.Keys
    ensures forall x :: x in r'.owner ==> Placed(r', x)
    ensures IndexValid(r'.index, r'.cells)
    ensures r'.total == |r'.index| == |r'.owner| == SumSizes(r'.bids) + SumSizes(r'.asks)
  {
    var l := LocOf(r, s);
    var side, p, k := l.side, l.price, l.pos;
    PlacedSame(r, r');
    UpdateIndex(r.index, r.cells, s, o);
    SumSizesUpdate(VOf(r, side), p, VOf(r, side)[p][k := o]);
    OwnerKeysUpdate(r.owner, r.cells, s, o);
    if side == Buy {} else {}
  }

  lemma UpdateView(r: Rep, r': Rep, side: Side, p: int, k: nat, o: Order)
    requires p in VOf(r, side) && k < |VOf(r, side)[p]|
    requires VOf(r', side) == UpdateAt(VOf(r, side), p, k, o) && VOf(r', Opposite(side)) == VOf(r, Opposite(side))
    ensures p in SideOf(ViewOf(r), side) && k < |SideOf(ViewOf(r), side)[p]|
    ensures ViewOf(r') == UpdateInView(ViewOf(r), Loc(side, p, k), o)
  {
    if side == Buy {} else {}
  }

  lemma UpdateSameOutside(cells: map<nat, OrderNode>, owner: map<nat, Place>, s: nat, pl: Place, o: Order)
    requires s in cells && s in owner && owner[s] == pl
    ensures SameOutside(pl, cells, owner, cells[s := cells[s].(order := o)], owner)
  {
  }

  lemma UpdateSide(levels: map<int, LevelList>, q: map<int, seq<nat>>, v: map<int, seq<Order>>, side: Side,
                   p: int, k: nat, o: Order, cells: map<nat, OrderNode>, owner: map<nat, Place>,
                   cells': map<nat, OrderNode>)
    requires SideValid(levels, q, v, side, cells, owner)
    requires p in q && p in v && k < |q[p]| && k < |v[p]| && o.price == p && o.side == side
    requires q[p][k] in cells && cells' == cells[q[p][k] := cells[q[p][k]].(order := o)]
    requires SameOutside(Place(side, p), cells, owner, cells', owner)
    ensures SideValid(levels, q, UpdateAt(v, p, k, o), side, cells', owner)
  {
    SideFrame(levels, q, v, side, Place(side, p), cells, owner, cells', owner);
    LevelUpdate(levels[p], q[p], v[p], side, p, cells, owner, k, o, cells');
  }

  /** `Placed` depends only on the owners and the queues. */
  lemma PlacedSame(r: Rep, r': Rep)
    requires forall x :: x in r.owner ==> Placed(r, x)
    requires r'.owner == r.owner && r'.buyQ == r.buyQ && r'.sellQ == r.sellQ
    ensures forall x :: x in r'.owner ==> Placed(r', x)
  {
    forall x | x in r'.owner ensures Placed(r', x) {
      assert Placed(r, x);
    }
  }

  lemma UpdateIndex(index: map<U64, nat>, cells: map<nat, OrderNode>, s: nat, o: Order)
    requires IndexValid(index, cells) && s in cells && o.id == cells[s].order.id
    ensures IndexValid(index, cells[s := cells[s].(order := o)])
  {
  }

  lemma OwnerKeysUpdate(owner: map<nat, Place>, cells: map<nat, OrderNode>, s: nat, o: Order)
    requires owner.Keys == cells.Keys && s in cells
    ensures owner.Keys == cells[s := cells[s].(order := o)].Keys
  {
  }

  /** The owner map and the arena keep the same slots when both gain the slot `s`. */
  lemma OwnerKeysAdd<A, B>(owner: map<nat, A>, cells: map<nat, B>, s: nat, a: A, cells': map<nat, B>)
    requires owner.Keys == cells.Keys && cells'.Keys == cells.Keys + {s}
    ensures owner[s := a].Keys == cells'.Keys
  {
  }

  /** The owner map and the arena keep the same slots when both lose the slot `s`. */
  lemma OwnerKeysRemove<A, B>(owner: map<nat, A>, cells: map<nat, B>, s: nat, cells': map<nat, B>)
    requires owner.Keys == cells.Keys && cells'.Keys == cells.Keys - {s}
    ensures (owner - {s}).Keys == cells'.Keys
  {
  }

  // ---------------------------------------------------------------------
  // Facts the storage's methods draw from the invariant

  /** A level header exists exactly where a queue does, and describes it. */
  lemma LevelHeader(r: Rep, side: Side, p: int)
    requires Inv(r)
    ensures p in LevelsOf(r, side) <==> p in QOf(r, side)
    ensures p in LevelsOf(r, side) <==> p in VOf(r, side)
    ensures p in LevelsOf(r, side) ==>
      LevelValid(LevelsOf(r, side)[p], QOf(r, side)[p], VOf(r, side)[p], side, p, r.cells, r.owner)
  {
    Unseal(r);
    SideValidOf(r, side);
  }

  /** The view of one side is the representation's map for that side. */
  lemma SideOfView(r: Rep, side: Side)
    ensures SideOf(ViewOf(r), side) == VOf(r, side)
  {
  }

  /** An indexed id names the order the view shows at its slot's location. */
  lemma IdFacts(r: Rep, id: U64)
    requires Inv(r) && id in r.index
    ensures r.index[id] in r.cells && r.cells[r.index[id]].order.id == id && Placed(r, r.index[id])
    ensures var l := LocOf(r, r.index[id]);
      l.price in SideOf(ViewOf(r), l.side) && l.pos < |SideOf(ViewOf(r), l.side)[l.price]| &&
      SideOf(ViewOf(r), l.side)[l.price][l.pos] == r.cells[r.index[id]].order
  {
    Unseal(r);
    SlotOrder(r, r.index[id]);
    SideOfView(r, LocOf(r, r.index[id]).side);
  }

  /** No level is empty, and every order rests at its own price on its own side. */
  ghost predicate LevelsFormed(m: map<int, seq<Order>>, side: Side) {
    forall p :: p in m ==> m[p] != [] && forall k :: 0 <= k < |m[p]| ==> m[p][k].price == p && m[p][k].side == side
  }

  /** The view of a valid storage is well formed on both sides. */
  lemma ViewFormed(r: Rep)
    requires Inv(r)
    ensures LevelsFormed(r.bids, Buy) && LevelsFormed(r.asks, Sell)
  {
    SideOfInv(r, Buy);
    SideOfInv(r, Sell);
  }

  /** Some order of the book carries the id `id`. */
  ghost predicate HasId(b: BookView, id: U64) {
    exists side: Side, p: int, k: nat ::
      p in SideOf(b, side) && k < |SideOf(b, side)[p]| && SideOf(b, side)[p][k].id == id
  }

  /** The index holds exactly the ids of the orders in the book. */
  lemma IndexIds(r: Rep, id: U64)
    requires Inv(r)
    ensures id in r.index <==> HasId(ViewOf(r), id)
  {
    if id in r.index {
      IdFacts(r, id);
      var l := LocOf(r, r.index[id]);
      assert SideOf(ViewOf(r), l.side)[l.price][l.pos].id == id;
    }
    if HasId(ViewOf(r), id) {
      var side: Side, p: int, k: nat :|
        p in SideOf(ViewOf(r), side) && k < |SideOf(ViewOf(r), side)[p]| && SideOf(ViewOf(r), side)[p][k].id == id;
      LevelHeader(r, side, p);
      LinkedAt(QOf(r, side)[p], VOf(r, side)[p], r.cells, k);
      Counts(r);
    }
  }

  /** The index entry of the order in slot `s` points back at `s`. */
  lemma SlotIndexed(r: Rep, s: nat)
    requires Inv(r) && s in r.cells
    ensures r.cells[s].order.id in r.index && r.index[r.cells[s].order.id] == s && Placed(r, s)
    ensures LocOfId(r, r.cells[s].order.id) == LocOf(r, s)
  {
    Counts(r);
    IdFacts(r, r.cells[s].order.id);
  }

  /** Where the order with id `id` rests. */
  ghost function LocOfId(r: Rep, id: U64): (l: Loc)
    requires Inv(r) && id in r.index
    ensures l.price in SideOf(ViewOf(r), l.side) && l.pos < |SideOf(ViewOf(r), l.side)[l.price]|
    ensures SideOf(ViewOf(r), l.side)[l.price][l.pos].id == id
  {
    IdFacts(r, id);
    LocOf(r, r.index[id])
  }

  /** The arena after `remove_from_price_level` rewired the neighbours `a`, `b` of slot `s` and `destroy` freed it. */
  ghost function Splice(cells: map<nat, OrderNode>, a: Link, b: Link, s: nat): map<nat, OrderNode>
    requires a.Some? ==> a.value in cells
    requires b.Some? ==> b.value in cells
  {
    Unlink(cells, a, b) - {s}
  }

  /** The arena after `remove_from_price_level` pointed the neighbours `a` and `b` of a node at each other. */
  function Unlink(cells: map<nat, OrderNode>, a: Link, b: Link): map<nat, OrderNode>
    requires a.Some? ==> a.value in cells
    requires b.Some? ==> b.value in cells
  {
    var c1 := if a.Some? then cells[a.value := cells[a.value].(next := b)] else cells;
    if b.Some? then c1[b.value := c1[b.value].(prev := a)] else c1
  }

  lemma SpliceUnlinks(qs: seq<nat>, vs: seq<Order>, k: nat, cells: map<nat, OrderNode>)
    requires Linked(qs, vs, cells) && k < |qs|
    ensures Pred(qs, k).Some? ==> Pred(qs, k).value in cells
    ensures Succ(qs, k).Some? ==> Succ(qs, k).value in cells
    ensures var c := Splice(cells, Pred(qs, k), Succ(qs, k), qs[k]);
      c.Keys == cells.Keys - {qs[k]} && UnlinkedCells(qs, k, cells, c)
  {
    LinkedDistinct(qs, vs, cells);
    if k > 0 {
      LinkedAt(qs, vs, cells, k - 1);
      assert qs[k - 1] != qs[k];
    }
    if k + 1 < |qs| {
      LinkedAt(qs, vs, cells, k + 1);
      assert qs[k + 1] != qs[k];
    }
    if 0 < k && k + 1 < |qs| {
      assert qs[k - 1] != qs[k + 1];
    }
  }

  // ---------------------------------------------------------------------
  // The size of the view under the three updates

  lemma CountAdd(b: BookView, o: Order)
    ensures Count(AddToView(b, o)) == Count(b) + 1
  {
    var m := SideOf(b, o.side);
    SumSizesUpdate(m, o.price, (if o.price in m then m[o.price] else []) + [o]);
  }

  lemma CountRemove(b: BookView, l: Loc)
    requires l.price in SideOf(b, l.side) && l.pos < |SideOf(b, l.side)[l.price]|
    ensures Count(RemoveFromView(b, l)) == Count(b) - 1
  {
    var m := SideOf(b, l.side);
    if |m[l.price]| == 1 {
      SumSizesRemove(m, l.price);
    } else {
      SumSizesUpdate(m, l.price, Without(m[l.price], l.pos));
    }
  }

  lemma CountUpdate(b: BookView, l: Loc, o: Order)
    requires l.price in SideOf(b, l.side) && l.pos < |SideOf(b, l.side)[l.price]|
    ensures Count(UpdateInView(b, l, o)) == Count(b)
  {
    var m := SideOf(b, l.side);
    SumSizesUpdate(m, l.price, m[l.price][l.pos := o]);
  }

  // ---------------------------------------------------------------------
  // get_depth on the view

  /** Price `a` ranks before price `b` on `side`: higher bids, lower asks. */
  predicate Better(side: Side, a: int, b: int) {
    if side == Buy then a > b else a < b
  }

  /** One depth row: the level's price, its summed remaining quantity in a `uint64_t`, its order count. */
  function DepthOf(p: int, vs: seq<Order>): DepthEntry {
    DepthEntry(p, LevelQuantity(vs) % U64_MOD, |vs|)
  }

  /** The first `n` levels of one side, best first. */
  ghost function TopLevels(m: map<int, seq<Order>>, n: nat, side: Side): seq<DepthEntry>
    decreases n
  {
    if n == 0 || m.Keys == {} then []
    else
      var p := BestPrice(m, side);
      [DepthOf(p, m[p])] + TopLevels(m - {p}, n - 1, side)
  }

  /** The best price of a side is one of its levels, and no level ranks before it. */
  lemma BestPriceRanks(m: map<int, seq<Order>>, side: Side)
    requires m.Keys != {}
    ensures BestPrice(m, side) in m && forall x :: x in m ==> !Better(side, x, BestPrice(m, side))
  {
  }

  /** A level that no other level ranks before is the best price. */
  lemma BestPriceUnique(m: map<int, seq<Order>>, side: Side, b: int)
    requires b in m && forall x :: x in m ==> !Better(side, x, b)
    ensures b == BestPrice(m, side)
  {
    BestPriceRanks(m, side);
  }

  /**
   * Listing from a side, one step: when `acc` followed by the first `k`
   * levels of `m` lists the whole side, so does `acc` with the best level of
   * `m` appended followed by the first `k - 1` levels of the rest.
   */
  lemma TopLevelsStep(whole: seq<DepthEntry>, acc: seq<DepthEntry>, m: map<int, seq<Order>>, k: nat, side: Side,
                       b: int, e: DepthEntry)
    requires k > 0 && b in m && b == BestPrice(m, side) && e == DepthOf(b, m[b])
    requires acc + TopLevels(m, k, side) == whole
    ensures (acc + [e]) + TopLevels(m - {b}, k - 1, side) == whole
  {
    assert TopLevels(m, k, side) == [e] + TopLevels(m - {b}, k - 1, side);
  }

  /**
   * `get_depth` lists at most `n` levels of a side, strictly from best to
   * worst price, each with its own quantity and count.
   */
  lemma {:induction false} TopLevelsShape(m: map<int, seq<Order>>, n: nat, side: Side)
    ensures var r := TopLevels(m, n, side);
      |r| == Min(n, |m.Keys|) &&
      (forall i :: 0 <= i < |r| ==> r[i].price in m && r[i] == DepthOf(r[i].price, m[r[i].price])) &&
      (forall i, j :: 0 <= i < j < |r| ==> Better(side, r[i].price, r[j].price))
    decreases n
  {
    var r := TopLevels(m, n, side);
    if n == 0 || m.Keys == {} {
      if m.Keys == {} { assert |m.Keys| == 0; }
    } else {
      var p := BestPrice(m, side);
      var m' := m - {p};
      assert m'.Keys == m.Keys - {p};
      TopLevelsShape(m', n - 1, side);
      var r' := TopLevels(m', n - 1, side);
      assert r == [DepthOf(p, m[p])] + r';
      forall i | 0 <= i < |r| ensures r[i].price in m && r[i] == DepthOf(r[i].price, m[r[i].price]) {
        if i > 0 { assert r[i] == r'[i - 1]; }
      }
      forall i, j | 0 <= i < j < |r| ensures Better(side, r[i].price, r[j].price) {
        assert r[j] == r'[j - 1];
        if i > 0 { assert r[i] == r'[i - 1]; }
        else { assert r[j].price in m' && r[j].price != p; }
      }
    }
  }

  /** `get_depth` skips no level that is better than one it lists. */
  lemma {:induction false} TopLevelsNoGap(m: map<int, seq<Order>>, n: nat, side: Side)
    ensures forall i, q :: 0 <= i < |TopLevels(m, n, side)| && q in m && Better(side, q, TopLevels(m, n, side)[i].price) ==>
      exists j :: 0 <= j < i && TopLevels(m, n, side)[j].price == q
    decreases n
  {
    var r := TopLevels(m, n, side);
    if n > 0 && m.Keys != {} {
      var p := BestPrice(m, side);
      var m' := m - {p};
      TopLevelsNoGap(m', n - 1, side);
      var r' := TopLevels(m', n - 1, side);
      assert r == [DepthOf(p, m[p])] + r';
      forall i, q | 0 <= i < |r| && q in m && Better(side, q, r[i].price)
        ensures exists j :: 0 <= j < i && r[j].price == q
      {
        if q == p {
          assert r[0].price == q;
        } else {
          assert i > 0;
          assert r[i] == r'[i - 1];
          assert 0 <= i - 1 < |r'| && q in m' && Better(side, q, r'[i - 1].price);
          var j' :| 0 <= j' < i - 1 && r'[j'].price == q;
          assert r[j' + 1].price == q;
        }
      }
    }
  }

  // ---------------------------------------------------------------------
  // The three updates as functions of the representation

  /** A level's header names its first and last slot, and the last one is in the arena. */
  lemma HeaderEnds(r: Rep, side: Side, p: int)
    requires RepValid(r)
    ensures p in LevelsOf(r, side) <==> p in QOf(r, side)
    ensures p in LevelsOf(r, side) ==>
      var qs := QOf(r, side)[p];
      qs != [] && LevelsOf(r, side)[p].head.Some? &&
      LevelsOf(r, side)[p].tail == Some(qs[|qs| - 1]) && qs[|qs| - 1] in r.cells
  {
    Seal(r);
    LevelHeader(r, side, p);
    if p in LevelsOf(r, side) {
      var qs := QOf(r, side)[p];
      LinkedAt(qs, VOf(r, side)[p], r.cells, |qs| - 1);
    }
  }

  /** The header of the level at `p` once `add_to_price_level` appended slot `s`. */
  function AppendHeader(l: map<int, LevelList>, p: int, s: nat): LevelList {
    if p in l then LevelList(l[p].head, Some(s), l[p].count + 1) else LevelList(Some(s), Some(s), 1)
  }

  /** The tail of the level an order joins, if that level exists. */
  function TailOf(r: Rep, o: Order): Link {
    var l := LevelsOf(r, o.side);
    if o.price in l then l[o.price].tail else None
  }

  /** The arena once slot `s`, holding `o`, is constructed and linked behind `tail`. */
  function AppendCells(cells: map<nat, OrderNode>, o: Order, s: nat, tail: Link): map<nat, OrderNode>
    requires tail.Some? ==> tail.value in cells
  {
    LinkAfter(cells[s := OrderNode(o, None, None)], s, tail)
  }

  /** The arena after `add_to_price_level` linked the node in slot `s` behind `tail`. */
  function LinkAfter(cells: map<nat, OrderNode>, s: nat, tail: Link): map<nat, OrderNode>
    requires s in cells && (tail.Some? ==> tail.value in cells)
  {
    if tail.Some? then
      var c := cells[s := cells[s].(prev := tail, next := None)];
      c[tail.value := c[tail.value].(next := Some(s))]
    else
      cells[s := cells[s].(next := None, prev := None)]
  }

  lemma AppendCellsKeys(cells: map<nat, OrderNode>, o: Order, s: nat, tail: Link)
    requires tail.Some? ==> tail.value in cells
    ensures AppendCells(cells, o, s, tail).Keys == cells.Keys + {s}
  {
  }

  /** The representation after `add_order_impl` put `o` into slot `s`. */
  function AddRep(r: Rep, o: Order, s: nat): Rep
    requires TailOf(r, o).Some? ==> TailOf(r, o).value in r.cells
  {
    var side, p := o.side, o.price;
    var l, q := LevelsOf(r, side), QOf(r, side);
    var r1 := r.(cells := AppendCells(r.cells, o, s, TailOf(r, o)), owner := r.owner[s := Place(side, p)],
                 index := r.index[o.id := s], total := r.total + 1);
    var l', q' := l[p := AppendHeader(l, p, s)], q[p := (if p in q then q[p] else []) + [s]];
    if side == Buy then r1.(buyLevels := l', buyQ := q', bids := Enqueue(r.bids, o))
    else r1.(sellLevels := l', sellQ := q', asks := Enqueue(r.asks, o))
  }

  /** Adding a new id in a fresh slot keeps the representation valid and enqueues the order in the view. */
  lemma AddRepValid(r: Rep, o: Order, s: nat)
    requires Inv(r) && s !in r.cells && o.id !in r.index
    ensures var l := LevelsOf(r, o.side);
      o.price in l ==> l[o.price].head.Some? && l[o.price].tail.Some? && l[o.price].tail.value in r.cells
    ensures TailOf(r, o).Some? ==> TailOf(r, o).value in r.cells
    ensures Inv(AddRep(r, o, s)) && ViewOf(AddRep(r, o, s)) == AddToView(ViewOf(r), o)
  {
    Unseal(r);
    HeaderEnds(r, o.side, o.price);
    AddRepShape(r, o, s);
    AddValid(r, o, s, AddRep(r, o, s));
    Seal(AddRep(r, o, s));
  }

  /** The level an order joins, if it exists, has a head and a tail slot in the arena. */
  lemma AddRepTail(r: Rep, o: Order)
    requires Inv(r)
    ensures var l := LevelsOf(r, o.side);
      o.price in l ==> l[o.price].head.Some? && l[o.price].tail.Some? && l[o.price].tail.value in r.cells
  {
    Unseal(r);
    HeaderEnds(r, o.side, o.price);
  }

  /** Everything `add_order_impl` needs to know about the new representation, in the shape its code produces. */
  lemma AddRepFacts(r: Rep, o: Order, s: nat)
    requires Inv(r) && s !in r.cells && o.id !in r.index
    ensures var l := LevelsOf(r, o.side);
      o.price in l ==> l[o.price].head.Some? && l[o.price].tail.Some? && l[o.price].tail.value in r.cells
    ensures var r', l := AddRep(r, o, s), LevelsOf(r, o.side);
      Inv(r') && ViewOf(r') == AddToView(ViewOf(r), o) &&
      r'.cells == LinkAfter(r.cells[s := OrderNode(o, None, None)], s, if o.price in l then l[o.price].tail else None) &&
      r'.cells.Keys == r.cells.Keys + {s} &&
      LevelsOf(r', o.side) == l[o.price := AppendHeader(l, o.price, s)] &&
      LevelsOf(r', Opposite(o.side)) == LevelsOf(r, Opposite(o.side)) &&
      r'.index == r.index[o.id := s] && r'.index.Keys == r.index.Keys + {o.id} && r'.total == r.total + 1
  {
    AddRepValid(r, o, s);
    AddRepCells(r, o, s);
    AddRepSide(r, o, s);
    AppendCellsKeys(r.cells, o, s, TailOf(r, o));
    MapKeysPut(r.index, o.id, s);
  }

  /**
   * A representation of the storage once `add_order_impl` put `o` into the
   * fresh slot `s`, given by what the code's steps produce.
   */
  lemma AddedRep(r: Rep, o: Order, s: nat) returns (r': Rep)
    requires Inv(r) && s !in r.cells && o.id !in r.index
    ensures var l := LevelsOf(r, o.side);
      o.price in l ==> l[o.price].head.Some? && l[o.price].tail.Some? && l[o.price].tail.value in r.cells
    ensures var l := LevelsOf(r, o.side);
      Inv(r') && ViewOf(r') == AddToView(ViewOf(r), o) &&
      r'.cells == AppendCells(r.cells, o, s, if o.price in l then l[o.price].tail else None) &&
      LevelsOf(r', o.side) == l[o.price := AppendHeader(l, o.price, s)] &&
      LevelsOf(r', Opposite(o.side)) == LevelsOf(r, Opposite(o.side)) &&
      r'.index == r.index[o.id := s] && r'.index.Keys == r.index.Keys + {o.id} && r'.total == r.total + 1
  {
    AddRepFacts(r, o, s);
    r' := AddRep(r, o, s);
  }

  lemma MapKeysPut<K, V>(m: map<K, V>, k: K, v: V)
    ensures m[k := v].Keys == m.Keys + {k}
  {
  }

  lemma AddRepShape(r: Rep, o: Order, s: nat)
    requires s !in r.cells
    requires var q := QOf(r, o.side);
      if o.price in q && q[o.price] != [] then
        TailOf(r, o) == Some(q[o.price][|q[o.price]| - 1]) && TailOf(r, o).value in r.cells
      else TailOf(r, o) == None
    ensures var r' := AddRep(r, o, s);
      AppendedCells(r, r', o, s) && AppendedSide(r, r', o, s) &&
      r'.owner == r.owner[s := Place(o.side, o.price)] &&
      r'.index == r.index[o.id := s] && r'.total == r.total + 1
  {
    AppendCellsKeys(r.cells, o, s, TailOf(r, o));
    AddRepCells(r, o, s);
    AddRepSide(r, o, s);
  }

  lemma AddRepCells(r: Rep, o: Order, s: nat)
    requires TailOf(r, o).Some? ==> TailOf(r, o).value in r.cells
    ensures var r' := AddRep(r, o, s);
      r'.cells == AppendCells(r.cells, o, s, TailOf(r, o)) &&
      r'.owner == r.owner[s := Place(o.side, o.price)] &&
      r'.index == r.index[o.id := s] && r'.total == r.total + 1
  {
    if o.side == Buy {} else {}
  }

  lemma AddRepSide(r: Rep, o: Order, s: nat)
    requires TailOf(r, o).Some? ==> TailOf(r, o).value in r.cells
    ensures AppendedSide(r, AddRep(r, o, s), o, s)
  {
    if o.side == Buy {} else {}
  }

  /** Slot `s` rests in a level whose header, neighbours and count `remove_order_impl` can rely on. */
  ghost predicate RemoveReady(r: Rep, s: nat) {
    s in r.cells && Placed(r, s) && r.total > 0 &&
    var l := LocOf(r, s);
    var qs := QOf(r, l.side)[l.price];
    l.price in LevelsOf(r, l.side) && LevelsOf(r, l.side)[l.price].count == |qs| &&
    l.price in VOf(r, l.side) && l.pos < |VOf(r, l.side)[l.price]| &&
    r.cells[s].order.side == l.side && r.cells[s].order.price == l.price &&
    r.cells[s].prev == Pred(qs, l.pos) && r.cells[s].next == Succ(qs, l.pos) &&
    (Pred(qs, l.pos).Some? ==> Pred(qs, l.pos).value in r.cells) &&
    (Succ(qs, l.pos).Some? ==> Succ(qs, l.pos).value in r.cells)
  }

  /** What `remove_from_price_level` reads about a resting slot. */
  lemma SlotLinks(r: Rep, s: nat)
    requires RepValid(r) && s in r.cells
    ensures RemoveReady(r, s)
  {
    SlotFacts(r, s);
    var l := LocOf(r, s);
    var qs := QOf(r, l.side)[l.price];
    var vs := VOf(r, l.side)[l.price];
    LinkedAt(qs, vs, r.cells, l.pos);
    if l.pos > 0 {
      LinkedAt(qs, vs, r.cells, l.pos - 1);
    }
    if l.pos + 1 < |qs| {
      LinkedAt(qs, vs, r.cells, l.pos + 1);
    }
    MapNonEmpty(r.owner, s);
  }

  lemma MapNonEmpty<K, V>(m: map<K, V>, k: K)
    requires k in m
    ensures |m| > 0
  {
    assert m.Keys == (m.Keys - {k}) + {k};
  }

  /** Splicing out a resting slot leaves its neighbours pointing at each other. */
  lemma SlotSplice(r: Rep, s: nat)
    requires Inv(r) && s in r.cells
    ensures Placed(r, s)
    ensures var l := LocOf(r, s);
      var qs := QOf(r, l.side)[l.price];
      (Pred(qs, l.pos).Some? ==> Pred(qs, l.pos).value in r.cells) &&
      (Succ(qs, l.pos).Some? ==> Succ(qs, l.pos).value in r.cells) &&
      var c := Splice(r.cells, Pred(qs, l.pos), Succ(qs, l.pos), s);
      c.Keys == r.cells.Keys - {s} && UnlinkedCells(qs, l.pos, r.cells, c)
  {
    Unseal(r);
    SlotFacts(r, s);
    var l := LocOf(r, s);
    SpliceUnlinks(QOf(r, l.side)[l.price], VOf(r, l.side)[l.price], l.pos, r.cells);
  }

  /** The representation after `remove_order_impl` unlinked and destroyed slot `s`. */
  ghost function RemoveRep(r: Rep, s: nat): Rep
    requires RemoveReady(r, s)
  {
    var l := LocOf(r, s);
    var side, p, k := l.side, l.price, l.pos;
    var lv, qs := LevelsOf(r, side), QOf(r, side)[p];
    var lv' := if |qs| == 1 then lv - {p} else lv[p := UnlinkHeader(lv[p], qs, k)];
    var r1 := r.(cells := Splice(r.cells, Pred(qs, k), Succ(qs, k), s), owner := r.owner - {s},
                 index := r.index - {r.cells[s].order.id}, total := r.total - 1);
    if side == Buy then r1.(buyLevels := lv', buyQ := RemoveAt(r.buyQ, p, k), bids := RemoveAt(r.bids, p, k))
    else r1.(sellLevels := lv', sellQ := RemoveAt(r.sellQ, p, k), asks := RemoveAt(r.asks, p, k))
  }

  /** Removing a resting slot keeps the representation valid and drops its order from the view. */
  lemma RemoveRepValid(r: Rep, s: nat)
    requires Inv(r) && s in r.cells
    ensures RemoveReady(r, s)
    ensures var l := LocOf(r, s);
      l.price in SideOf(ViewOf(r), l.side) && l.pos < |SideOf(ViewOf(r), l.side)[l.price]| &&
      Inv(RemoveRep(r, s)) && ViewOf(RemoveRep(r, s)) == RemoveFromView(ViewOf(r), l)
  {
    Unseal(r);
    SlotLinks(r, s);
    SlotSplice(r, s);
    RemoveRepShape(r, s);
    RemoveValid(r, s, RemoveRep(r, s));
    Seal(RemoveRep(r, s));
  }

  /** Everything `remove_order_impl` needs to know about the new representation, in the shape its code produces. */
  lemma RemoveRepFacts(r: Rep, s: nat)
    requires Inv(r) && s in r.cells
    ensures RemoveReady(r, s) && Holds(ViewOf(r), LocOf(r, s))
    ensures var n, l := r.cells[s], LevelsOf(r, r.cells[s].order.side);
      (n.prev.Some? ==> n.prev.value in r.cells) && (n.next.Some? ==> n.next.value in r.cells) &&
      n.order.price in l && l[n.order.price].count > 0
    ensures var n, l, r' := r.cells[s], LevelsOf(r, r.cells[s].order.side), RemoveRep(r, s);
      var p := n.order.price;
      Inv(r') && ViewOf(r') == RemoveFromView(ViewOf(r), LocOf(r, s)) &&
      r'.cells == Unlink(r.cells, n.prev, n.next) - {s} &&
      LevelsOf(r', n.order.side) == (if l[p].count == 1 then l - {p} else l[p := HeaderWithout(l[p], n.prev, n.next)]) &&
      LevelsOf(r', Opposite(n.order.side)) == LevelsOf(r, Opposite(n.order.side)) &&
      r'.index == r.index - {n.order.id} && r'.total == r.total - 1
  {
    RemoveRepValid(r, s);
    SlotSplice(r, s);
    RemoveRepRest(r, s);
    RemoveRepSide(r, s);
  }

  /**
   * A representation of the storage once `remove_order_impl` unlinked and
   * destroyed the resting slot `s`, given by what the code's steps produce.
   */
  lemma RemovedRep(r: Rep, s: nat) returns (r': Rep)
    requires Inv(r) && s in r.cells
    ensures var n, l := r.cells[s], LevelsOf(r, r.cells[s].order.side);
      (n.prev.Some? ==> n.prev.value in r.cells) && (n.next.Some? ==> n.next.value in r.cells) &&
      n.order.price in l && l[n.order.price].count > 0
    ensures Placed(r, s) && Holds(ViewOf(r), LocOf(r, s))
    ensures var n, l := r.cells[s], LevelsOf(r, r.cells[s].order.side);
      var p := n.order.price;
      Inv(r') && ViewOf(r') == RemoveFromView(ViewOf(r), LocOf(r, s)) &&
      r'.cells == Unlink(r.cells, n.prev, n.next) - {s} &&
      LevelsOf(r', n.order.side) == (if l[p].count == 1 then l - {p} else l[p := HeaderWithout(l[p], n.prev, n.next)]) &&
      LevelsOf(r', Opposite(n.order.side)) == LevelsOf(r, Opposite(n.order.side)) &&
      r'.index == r.index - {n.order.id} && r'.total == r.total - 1
  {
    RemoveRepFacts(r, s);
    r' := RemoveRep(r, s);
  }

  lemma RemoveRepShape(r: Rep, s: nat)
    requires RemoveReady(r, s)
    requires var l := LocOf(r, s);
      var qs := QOf(r, l.side)[l.price];
      var c := Splice(r.cells, Pred(qs, l.pos), Succ(qs, l.pos), s);
      c.Keys == r.cells.Keys - {s} && UnlinkedCells(qs, l.pos, r.cells, c)
    ensures var r' := RemoveRep(r, s);
      RemovedCells(r, r', s) && RemovedSide(r, r', s) && r'.owner == r.owner - {s} &&
      r'.index == r.index - {r.cells[s].order.id} && r'.total == r.total - 1
  {
    RemoveRepRest(r, s);
    RemoveRepSide(r, s);
  }

  lemma RemoveRepRest(r: Rep, s: nat)
    requires RemoveReady(r, s)
    ensures var l := LocOf(r, s);
      var qs := QOf(r, l.side)[l.price];
      var r' := RemoveRep(r, s);
      r'.cells == Splice(r.cells, Pred(qs, l.pos), Succ(qs, l.pos), s) && r'.owner == r.owner - {s} &&
      r'.index == r.index - {r.cells[s].order.id} && r'.total == r.total - 1
  {
    if LocOf(r, s).side == Buy {} else {}
  }

  lemma RemoveRepSide(r: Rep, s: nat)
    requires RemoveReady(r, s)
    ensures RemovedSide(r, RemoveRep(r, s), s)
  {
    if LocOf(r, s).side == Buy {} else {}
  }

  /** Slot `s` rests at a location of the view. */
  ghost predicate UpdateReady(r: Rep, s: nat) {
    s in r.cells && Placed(r, s) &&
    var l := LocOf(r, s);
    l.price in VOf(r, l.side) && l.pos < |VOf(r, l.side)[l.price]| &&
    r.cells[s].order.side == l.side && r.cells[s].order.price == l.price
  }

  /** The representation after the order in slot `s` was overwritten by `o`. */
  ghost function UpdateRep(r: Rep, s: nat, o: Order): Rep
    requires UpdateReady(r, s)
  {
    var l := LocOf(r, s);
    var r1 := r.(cells := r.cells[s := r.cells[s].(order := o)]);
    if l.side == Buy then r1.(bids := UpdateAt(r.bids, l.price, l.pos, o))
    else r1.(asks := UpdateAt(r.asks, l.price, l.pos, o))
  }

  /** Overwriting a resting order by one with the same id, price and side keeps the representation valid. */
  lemma UpdateRepValid(r: Rep, s: nat, o: Order)
    requires Inv(r) && s in r.cells
    requires o.id == r.cells[s].order.id && o.price == r.cells[s].order.price && o.side == r.cells[s].order.side
    ensures UpdateReady(r, s)
    ensures var l := LocOf(r, s);
      l.price in SideOf(ViewOf(r), l.side) && l.pos < |SideOf(ViewOf(r), l.side)[l.price]| &&
      Inv(UpdateRep(r, s, o)) && ViewOf(UpdateRep(r, s, o)) == UpdateInView(ViewOf(r), l, o) &&
      Placed(UpdateRep(r, s, o), s) && LocOf(UpdateRep(r, s, o), s) == l
  {
    Unseal(r);
    SlotLinks(r, s);
    UpdateRepShape(r, s, o);
    UpdateValid(r, s, o, UpdateRep(r, s, o));
    Seal(UpdateRep(r, s, o));
  }

  lemma UpdateRepShape(r: Rep, s: nat, o: Order)
    requires UpdateReady(r, s)
    ensures var l := LocOf(r, s);
      var r' := UpdateRep(r, s, o);
      r'.cells == r.cells[s := r.cells[s].(order := o)] &&
      VOf(r', l.side) == UpdateAt(VOf(r, l.side), l.price, l.pos, o) &&
      VOf(r', Opposite(l.side)) == VOf(r, Opposite(l.side)) &&
      r'.owner == r.owner && r'.buyLevels == r.buyLevels && r'.sellLevels == r.sellLevels &&
      r'.buyQ == r.buyQ && r'.sellQ == r.sellQ && r'.index == r.index && r'.total == r.total
  {
    if LocOf(r, s).side == Buy {} else {}
  }

  // ---------------------------------------------------------------------
  // The empty book, and tearing it down

  /** The representation of a storage that holds nothing. */
  function EmptyRep(): Rep {
    Rep(map[], map[], map[], map[], map[], map[], map[], map[], map[], 0)
  }

  lemma EmptyRepValid()
    ensures Inv(EmptyRep()) && ViewOf(EmptyRep()) == BookView(map[], map[])
  {
    SumSizesZero<int, Order>(map[]);
    Seal(EmptyRep());
  }

  /** Destroying the slot of one indexed id leaves an index that describes the remaining arena. */
  lemma IndexDrop(index: map<U64, nat>, cells: map<nat, OrderNode>, id: U64)
    requires IndexValid(index, cells) && id in index
    ensures index[id] in cells && IndexValid(index - {id}, cells - {index[id]})
  {
    var s := index[id];
    forall x | x in index - {id} ensures (index - {id})[x] in cells - {s} {
      assert cells[index[x]].order.id == x;
    }
  }

  /** An empty index describes an empty arena. */
  lemma IndexEmpty(cells: map<nat, OrderNode>)
    requires IndexValid(map[], cells)
    ensures cells == map[]
  {
  }
}
