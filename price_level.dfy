// Helpers over a price level held as a vector of (nullable) order pointers
// (namespace `orderbook::price_level`, src/orderbook/core/price_level.hpp).
// A null pointer is `None`; the pointed-to orders are only read here, so each
// entry is the order's value.

module PriceLevel {
  import opened Common
  import opened Orders

  type Entry = Option<Order>

  /** An entry that still rests: non-null and not fully filled. */
  predicate Live(e: Entry) {
    e.Some? && !IsFullyFilled(e.value)
  }

  /** The live entries of a level, in their order. */
  function Kept(s: seq<Entry>): (r: seq<Entry>)
    ensures |r| <= |s|
  {
    if s == [] then []
    else Kept(s[..|s| - 1]) + (if Live(s[|s| - 1]) then [s[|s| - 1]] else [])
  }

  /** What one entry adds to the level's quantity. */
  function Contribution(e: Entry): U64 {
    if e.Some? then Remaining(e.value) else 0
  }

  /** Sum of the remaining quantities of the non-null entries (unbounded). */
  function Aggregate(s: seq<Entry>): nat {
    if s == [] then 0 else Aggregate(s[..|s| - 1]) + Contribution(s[|s| - 1])
  }

  /** No order of the level has been filled beyond its quantity. */
  predicate NotOverfilled(s: seq<Entry>) {
    forall k :: 0 <= k < |s| && s[k].Some? ==> s[k].value.filled <= s[k].value.quantity
  }

  lemma {:induction false} KeptAppend(a: seq<Entry>, b: seq<Entry>)
    ensures Kept(a + b) == Kept(a) + Kept(b)
    decreases |b|
  {
    if b == [] {
      assert a + b == a;
    } else {
      var b' := b[..|b| - 1];
      assert (a + b)[..|a + b| - 1] == a + b';
      KeptAppend(a, b');
    }
  }

  /** Cleanup keeps exactly the live entries: each kept entry is live and each live entry is kept. */
  lemma {:induction false} KeptMembers(s: seq<Entry>)
    ensures forall e :: e in Kept(s) <==> e in s && Live(e)
    decreases |s|
  {
    if s != [] {
      var s' := s[..|s| - 1];
      KeptMembers(s');
      assert s == s' + [s[|s| - 1]];
    }
  }

  /** Removing filled and null entries leaves the level's quantity unchanged. */
  lemma {:induction false} AggregateOfKept(s: seq<Entry>)
    requires NotOverfilled(s)
    ensures Aggregate(Kept(s)) == Aggregate(s)
    decreases |s|
  {
    if s != [] {
      var s' := s[..|s| - 1];
      var last := s[|s| - 1];
      assert NotOverfilled(s') by {
        forall k | 0 <= k < |s'| && s'[k].Some? ensures s'[k].value.filled <= s'[k].value.quantity {
          assert s'[k] == s[k];
        }
      }
      AggregateOfKept(s');
      if Live(last) {
        var k := Kept(s') + [last];
        assert k[..|k| - 1] == Kept(s');
      } else {
        assert Kept(s) == Kept(s') + [] == Kept(s');
        assert Aggregate(s) == Aggregate(s') + Contribution(last);
        assert Contribution(last) == 0 by {
          if last.Some? {
            assert last.value.filled <= last.value.quantity;
            FullyFilledIffNoneRemaining(last.value);
          }
        }
      }
    }
  }

  /** A level with no live order has no remaining quantity. */
  lemma {:induction false} EmptyLevelHasNoQuantity(s: seq<Entry>)
    requires NotOverfilled(s)
    requires Kept(s) == []
    ensures Aggregate(s) == 0
    decreases |s|
  {
    if s != [] {
      var s' := s[..|s| - 1];
      KeptAppend(s', [s[|s| - 1]]);
      assert s' + [s[|s| - 1]] == s;
      EmptyLevelHasNoQuantity(s');
    }
  }

  /** `aggregate_quantity`: sum of remaining quantities in a `uint64_t` accumulator. */
  method AggregateQuantity(orders: seq<Entry>) returns (total: U64)
    ensures total == Aggregate(orders) % U64_MOD
  {
    total := 0;
    var i := 0;
    while i < |orders|
      invariant 0 <= i <= |orders|
      invariant total == Aggregate(orders[..i]) % U64_MOD
    {
      assert orders[..i + 1][..i] == orders[..i];
      total := Add64(total, Contribution(orders[i]));
      i := i + 1;
    }
    assert orders[..i] == orders;
  }

  /** `get_best_order`: the first live entry, or null. */
  method GetBestOrder(orders: seq<Entry>) returns (best: Entry)
    ensures best == if Kept(orders) == [] then None else Kept(orders)[0]
  {
    if |orders| == 0 {
      return None;
    }
    var i := 0;
    while i < |orders|
      invariant 0 <= i <= |orders|
      invariant Kept(orders[..i]) == []
    {
      assert orders[..i + 1][..i] == orders[..i];
      if orders[i].Some? && !IsFullyFilled(orders[i].value) {
        KeptAppend(orders[..i + 1], orders[i + 1..]);
        assert orders[..i + 1] + orders[i + 1..] == orders;
        return orders[i];
      }
      i := i + 1;
    }
    assert orders[..i] == orders;
    return None;
  }

  /** `is_empty`: no entry is live. */
  method IsEmpty(orders: seq<Entry>) returns (empty: bool)
    ensures empty <==> Kept(orders) == []
  {
    var i := 0;
    while i < |orders|
      invariant 0 <= i <= |orders|
      invariant Kept(orders[..i]) == []
    {
      assert orders[..i + 1][..i] == orders[..i];
      if orders[i].Some? && !IsFullyFilled(orders[i].value) {
        KeptAppend(orders[..i + 1], orders[i + 1..]);
        assert orders[..i + 1] + orders[i + 1..] == orders;
        return false;
      }
      i := i + 1;
    }
    assert orders[..i] == orders;
    return true;
  }

  /** `count_orders`: the number of live entries. */
  method CountOrders(orders: seq<Entry>) returns (n: nat)
    ensures n == |Kept(orders)|
  {
    n := 0;
    var i := 0;
    while i < |orders|
      invariant 0 <= i <= |orders|
      invariant n == |Kept(orders[..i])|
    {
      assert orders[..i + 1][..i] == orders[..i];
      if orders[i].Some? && !IsFullyFilled(orders[i].value) {
        n := n + 1;
      }
      i := i + 1;
    }
    assert orders[..i] == orders;
  }

  /**
   * `cleanup_filled_orders`: `remove_if` compacts the live entries to the
   * front in their order; `erase` then cuts the vector at `newLength`.
   */
  method CleanupFilledOrders(orders: array<Entry>) returns (newLength: nat)
    modifies orders
    ensures newLength <= orders.Length
    ensures orders[..newLength] == Kept(old(orders[..]))
  {
    var w := 0;
    var i := 0;
    while i < orders.Length
      invariant 0 <= w <= i <= orders.Length
      invariant orders[..w] == Kept(old(orders[..])[..i])
      invariant orders[i..] == old(orders[..])[i..]
    {
      ghost var was, pre := old(orders[..]), orders[..];
      assert was[..i + 1][..i] == was[..i];
      assert Kept(was[..i + 1]) == Kept(was[..i]) + (if Live(was[i]) then [was[i]] else []);
      assert orders[i] == was[i];
      assert pre[i + 1..] == pre[i..][1..] == was[i..][1..] == was[i + 1..];
      if orders[i].Some? && !IsFullyFilled(orders[i].value) {
        orders[w] := orders[i];
        assert orders[..w + 1] == pre[..w] + [was[i]];
        w := w + 1;
      }
      assert orders[i + 1..] == pre[i + 1..];
      i := i + 1;
    }
    assert old(orders[..])[..i] == old(orders[..]);
    newLength := w;
  }

  /** All orders of the array belong to one side, which makes `Before` a strict weak order. */
  predicate OneSide(s: seq<Order>) {
    forall k :: 0 <= k < |s| ==> s[k].side == (if |s| == 0 then Buy else s[0].side)
  }

  /** No later order has strictly higher priority than an earlier one. */
  predicate SortedByPriority(s: seq<Order>) {
    forall p, q :: 0 <= p < q < |s| ==> !Before(s[q], s[p])
  }

  /**
   * `sort_by_priority`: `std::sort` with the price-time comparator. The
   * comparator is a strict weak order only among orders of one side, which
   * the caller has to guarantee; null pointers are excluded (dereferencing
   * them is undefined).
   */
  method SortByPriority(orders: array<Order>)
    requires OneSide(orders[..])
    modifies orders
    ensures SortedByPriority(orders[..])
    ensures multiset(orders[..]) == multiset(old(orders[..]))
  {
    if orders.Length == 0 {
      return;
    }
    ghost var side := orders[0].side;
    var i := 1;
    while i < orders.Length
      invariant 1 <= i <= orders.Length
      invariant forall k :: 0 <= k < orders.Length ==> orders[k].side == side
      invariant SortedByPriority(orders[..i])
      invariant multiset(orders[..]) == multiset(old(orders[..]))
    {
      InsertLast(orders, i, side);
      i := i + 1;
    }
    assert orders[..i] == orders[..];
  }

  /** One insertion step: move `a[i]` left past every order it beats. */
  method InsertLast(a: array<Order>, i: nat, ghost side: Side)
    requires 0 < i < a.Length
    requires forall k :: 0 <= k < a.Length ==> a[k].side == side
    requires SortedByPriority(a[..i])
    modifies a
    ensures forall k :: 0 <= k < a.Length ==> a[k].side == side
    ensures SortedByPriority(a[..i + 1])
    ensures multiset(a[..]) == multiset(old(a[..]))
    ensures a[i + 1..] == old(a[i + 1..])
  {
    var j := i;
    while j > 0 && Before(a[j], a[j - 1])
      invariant 0 <= j <= i
      invariant Inserting(a[..], i, j, side)
      invariant multiset(a[..]) == multiset(old(a[..]))
      invariant a[i + 1..] == old(a[i + 1..])
    {
      ghost var s := a[..];
      SwapDown(a, j);
      SwapStep(s, a[..], i, j, side);
      j := j - 1;
    }
    InsertedSorted(a[..], i, j, side);
  }

  /** Exchange `a[j]` with its predecessor. */
  method SwapDown(a: array<Order>, j: nat)
    requires 0 < j < a.Length
    modifies a
    ensures a[..] == old(a[..])[j - 1 := old(a[j])][j := old(a[j - 1])]
  {
    a[j], a[j - 1] := a[j - 1], a[j];
  }

  /**
   * The state of an insertion step moving the order now at `j`: one side
   * throughout, `s[j]` beats every order after it up to `i`, and all other
   * pairs up to `i` are in order.
   */
  ghost predicate Inserting(s: seq<Order>, i: nat, j: nat, side: Side) {
    j <= i < |s| &&
    (forall k :: 0 <= k < |s| ==> s[k].side == side) &&
    (forall p, q :: 0 <= p < q <= i && p != j && q != j ==> !Before(s[q], s[p])) &&
    (forall q :: j < q <= i ==> Before(s[j], s[q]))
  }

  /** Swapping the moving order with a predecessor it beats keeps the insertion state. */
  lemma SwapStep(s: seq<Order>, s': seq<Order>, i: nat, j: nat, side: Side)
    requires Inserting(s, i, j, side) && 0 < j && Before(s[j], s[j - 1])
    requires s' == s[j - 1 := s[j]][j := s[j - 1]]
    ensures Inserting(s', i, j - 1, side)
    ensures multiset(s') == multiset(s) && s'[i + 1..] == s[i + 1..]
  {
    AdjacentSwap(s, s', j);
    forall p, q | 0 <= p < q <= i && p != j - 1 && q != j - 1 ensures !Before(s'[q], s'[p]) {
      if q == j {
        assert s'[q] == s[j - 1] && s'[p] == s[p];
      } else if p == j {
        assert s'[p] == s[j - 1] && s'[q] == s[q];
      } else {
        assert s'[p] == s[p] && s'[q] == s[q];
      }
    }
  }

  /**
   * The insertion step's exit state: `s[j]` beats everything after it up to
   * `i`, does not beat `s[j - 1]`, and all other pairs up to `i` are in order.
   */
  lemma InsertedSorted(s: seq<Order>, i: nat, j: nat, side: Side)
    requires Inserting(s, i, j, side)
    requires j > 0 ==> !Before(s[j], s[j - 1])
    ensures SortedByPriority(s[..i + 1])
  {
    forall p, q | 0 <= p < q <= i ensures !Before(s[q], s[p]) {
      if q == j {
        if p < j - 1 {
          BeforeStrictWeak(s[j], s[j - 1], s[p]);
        }
      } else if p == j {
        BeforeStrictWeak(s[j], s[q], s[q]);
      }
    }
  }

  /** Swapping two neighbours permutes a sequence. */
  lemma AdjacentSwap<T>(s: seq<T>, s': seq<T>, j: nat)
    requires 0 < j < |s| && s' == s[j - 1 := s[j]][j := s[j - 1]]
    ensures multiset(s') == multiset(s)
  {
    var t := s[j - 1 := s[j]];
    assert multiset(t) == multiset(s) - multiset{s[j - 1]} + multiset{s[j]};
    assert multiset(s') == multiset(t) - multiset{t[j]} + multiset{s[j - 1]};
  }
}
