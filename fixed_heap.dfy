// The fixed-capacity binary heap of the practice data structures
// (src/language_practice/some_ds.hpp): `(key, value)` nodes in slots
// `1..size` of a `Capacity + 1`-slot array, no node's key `Comp`-less than
// its parent's, so that slot 1 holds a `Comp`-minimal key.
//
// `Comp` is the heap's parameter, a strict weak ordering as the code
// requires; the model states the two laws the sift loops use.

module FixedHeap {
  import opened Common

  /** `Node`: a key and its payload. */
  datatype Node<K, V> = Node(key: K, val: V)

  /**
   * The strict weak ordering laws the sifts rely on: `comp` is asymmetric,
   * and "not less than" is transitive.
   */
  ghost predicate OrderLaws<K(!new)>(comp: (K, K) -> bool) {
    (forall a, b :: comp(a, b) ==> !comp(b, a)) &&
    (forall a, b, c :: !comp(a, b) && !comp(b, c) ==> !comp(a, c))
  }

  /** `OrderLaws`, kept behind `Sealed`: only the two lemmas below see the laws. */
  ghost predicate StrictWeakOrder<K(!new)>(comp: (K, K) -> bool) {
    forall k {:trigger Sealed(comp, k)} :: Sealed(comp, k) ==> OrderLaws(comp)
  }

  /** Closes `StrictWeakOrder` over the plain laws. */
  lemma SealOrder<K(!new)>(comp: (K, K) -> bool)
    requires OrderLaws(comp)
    ensures StrictWeakOrder(comp)
  {
    forall k | Sealed(comp, k)
      ensures OrderLaws(comp)
    {
    }
  }

  lemma Asym<K(!new)>(comp: (K, K) -> bool, a: K, b: K)
    requires StrictWeakOrder(comp)
    ensures comp(a, b) ==> !comp(b, a)
  {
    assert Sealed(comp, 0);
  }

  lemma NotLessTrans<K(!new)>(comp: (K, K) -> bool, a: K, b: K, c: K)
    requires StrictWeakOrder(comp) && !comp(a, b) && !comp(b, c)
    ensures !comp(a, c)
  {
    assert Sealed(comp, 0);
  }

  /** Slot `i`'s key is not `comp`-less than its parent's (slot `i / 2`). */
  ghost predicate Below<K, V>(comp: (K, K) -> bool, a: seq<Node<K, V>>, i: nat)
    requires 1 <= i < |a|
  {
    !comp(a[i].key, a[i / 2].key)
  }

  /** Slots `1..sz` form a heap: every slot but the root is `Below` its parent. */
  ghost predicate IsHeap<K, V>(comp: (K, K) -> bool, a: seq<Node<K, V>>, sz: nat) {
    sz < |a| && forall i :: 2 <= i <= sz ==> Below(comp, a, i)
  }

  /** `a` with slots `i` and `j` exchanged (`std::swap`). */
  function Swap<T>(a: seq<T>, i: nat, j: nat): (b: seq<T>)
    requires i < |a| && j < |a|
    ensures |b| == |a| && b[i] == a[j] && b[j] == a[i]
    ensures forall k :: 0 <= k < |a| && k != i && k != j ==> b[k] == a[k]
  {
    a[i := a[j]][j := a[i]]
  }

  /** A swap inside slots `1..sz` keeps the multiset of the heap's nodes. */
  lemma SwapKeepsNodes<T>(a: seq<T>, sz: nat, i: nat, j: nat)
    requires 1 <= i <= sz && 1 <= j <= sz && sz < |a|
    ensures multiset(Swap(a, i, j)[1..sz + 1]) == multiset(a[1..sz + 1])
  {
    var s := a[1..sz + 1];
    assert Swap(a, i, j)[1..sz + 1] == s[i - 1 := s[j - 1]][j - 1 := s[i - 1]];
  }

  /** A heap's root is `comp`-minimal: no node's key is less than slot 1's. */
  lemma {:induction false} RootMinimal<K(!new), V>(comp: (K, K) -> bool, a: seq<Node<K, V>>, sz: nat, i: nat)
    requires StrictWeakOrder(comp) && IsHeap(comp, a, sz) && 1 <= i <= sz
    ensures !comp(a[i].key, a[1].key)
    decreases i
  {
    if i == 1 {
      Asym(comp, a[1].key, a[1].key);
    } else {
      assert Below(comp, a, i);
      RootMinimal(comp, a, sz, i / 2);
      NotLessTrans(comp, a[i].key, a[i / 2].key, a[1].key);
    }
  }

  /** Every node of a nonempty heap has a key not less than the root's. */
  lemma RootBelowAll<K(!new), V>(comp: (K, K) -> bool, a: seq<Node<K, V>>, sz: nat)
    requires StrictWeakOrder(comp) && IsHeap(comp, a, sz) && 1 <= sz
    ensures forall y :: y in multiset(a[1..sz + 1]) ==> !comp(y.key, a[1].key)
  {
    forall y | y in multiset(a[1..sz + 1])
      ensures !comp(y.key, a[1].key)
    {
      var k :| 0 <= k < sz && a[1..sz + 1][k] == y;
      RootMinimal(comp, a, sz, k + 1);
    }
  }

  // ---------------------------------------------------------------------
  // sift_up

  /**
   * `sift_up`'s loop invariant at slot `idx`: every slot but `idx` is
   * below its parent, and `idx`'s children are below `idx`'s parent.
   */
  ghost predicate UpInv<K, V>(comp: (K, K) -> bool, a: seq<Node<K, V>>, sz: nat, idx: nat) {
    1 <= idx <= sz < |a| &&
    (forall i :: 2 <= i <= sz && i != idx ==> Below(comp, a, i)) &&
    (idx > 1 && 2 * idx <= sz ==> !comp(a[2 * idx].key, a[idx / 2].key)) &&
    (idx > 1 && 2 * idx + 1 <= sz ==> !comp(a[2 * idx + 1].key, a[idx / 2].key))
  }

  /** A node written just past a heap of `sz - 1` nodes starts `sift_up` at slot `sz`. */
  lemma UpStart<K, V>(comp: (K, K) -> bool, a: seq<Node<K, V>>, sz: nat, x: Node<K, V>)
    requires IsHeap(comp, a, sz) && sz + 1 < |a|
    ensures UpInv(comp, a[sz + 1 := x], sz + 1, sz + 1)
  {
    var b := a[sz + 1 := x];
    forall i | 2 <= i <= sz
      ensures Below(comp, b, i)
    {
      assert Below(comp, a, i);
    }
  }

  /** A pass of `sift_up`: swapping `idx` with a greater parent moves the invariant to the parent. */
  lemma UpStep<K(!new), V>(comp: (K, K) -> bool, a: seq<Node<K, V>>, sz: nat, idx: nat)
    requires StrictWeakOrder(comp) && UpInv(comp, a, sz, idx) && idx > 1 && comp(a[idx].key, a[idx / 2].key)
    ensures UpInv(comp, Swap(a, idx, idx / 2), sz, idx / 2)
  {
    var p := idx / 2;
    var b := Swap(a, idx, p);
    var x, y := a[idx], a[p];
    Asym(comp, x.key, y.key);
    forall i | 2 <= i <= sz && i != p
      ensures Below(comp, b, i)
    {
      if i == idx {
      } else if i / 2 == idx {
        assert b[i] == a[i];
      } else if i / 2 == p {
        assert Below(comp, a, i);
        NotLessTrans(comp, a[i].key, y.key, x.key);
      } else {
        assert Below(comp, a, i);
      }
    }
    if p > 1 {
      assert Below(comp, a, p);
      var s := if idx % 2 == 0 then idx + 1 else idx - 1;
      if s <= sz {
        assert Below(comp, a, s);
        NotLessTrans(comp, a[s].key, y.key, a[p / 2].key);
      }
    }
  }

  /** `sift_up` stops at the root or below a parent that is not greater: a heap. */
  lemma UpDone<K, V>(comp: (K, K) -> bool, a: seq<Node<K, V>>, sz: nat, idx: nat)
    requires UpInv(comp, a, sz, idx) && (idx == 1 || !comp(a[idx].key, a[idx / 2].key))
    ensures IsHeap(comp, a, sz)
  {
  }

  // ---------------------------------------------------------------------
  // sift_down

  /**
   * `sift_down`'s loop invariant at slot `idx`: every slot whose parent is
   * not `idx` is below its parent, and `idx`'s children are below `idx`'s
   * parent.
   */
  ghost predicate DownInv<K, V>(comp: (K, K) -> bool, a: seq<Node<K, V>>, sz: nat, idx: nat) {
    1 <= idx <= sz < |a| &&
    (forall i :: 2 <= i <= sz && i / 2 != idx ==> Below(comp, a, i)) &&
    (idx > 1 && 2 * idx <= sz ==> !comp(a[2 * idx].key, a[idx / 2].key)) &&
    (idx > 1 && 2 * idx + 1 <= sz ==> !comp(a[2 * idx + 1].key, a[idx / 2].key))
  }

  /** The last node moved to the root of a heap of `sz + 1` nodes starts `sift_down` at slot 1. */
  lemma DownStart<K, V>(comp: (K, K) -> bool, a: seq<Node<K, V>>, sz: nat)
    requires IsHeap(comp, a, sz + 1) && 1 <= sz
    ensures DownInv(comp, a[1 := a[sz + 1]], sz, 1)
  {
    var b := a[1 := a[sz + 1]];
    forall i | 2 <= i <= sz && i / 2 != 1
      ensures Below(comp, b, i)
    {
      assert Below(comp, a, i);
    }
  }

  /** The child `sift_down` compares with: the right one when it exists and is less than the left one. */
  function BestChild<K, V>(comp: (K, K) -> bool, a: seq<Node<K, V>>, sz: nat, idx: nat): (best: nat)
    requires 2 * idx <= sz < |a|
    ensures best == 2 * idx || best == 2 * idx + 1
    ensures best <= sz
  {
    if 2 * idx + 1 <= sz && comp(a[2 * idx + 1].key, a[2 * idx].key) then 2 * idx + 1 else 2 * idx
  }

  /** The other child, when it exists, is not less than the best one. */
  lemma BestIsLeast<K(!new), V>(comp: (K, K) -> bool, a: seq<Node<K, V>>, sz: nat, idx: nat)
    requires StrictWeakOrder(comp) && 2 * idx <= sz < |a|
    ensures var best := BestChild(comp, a, sz, idx);
      (2 * idx <= sz ==> !comp(a[2 * idx].key, a[best].key)) &&
      (2 * idx + 1 <= sz ==> !comp(a[2 * idx + 1].key, a[best].key))
  {
    Asym(comp, a[2 * idx].key, a[2 * idx].key);
    if 2 * idx + 1 <= sz {
      Asym(comp, a[2 * idx + 1].key, a[2 * idx].key);
      Asym(comp, a[2 * idx + 1].key, a[2 * idx + 1].key);
    }
  }

  /** A pass of `sift_down`: swapping `idx` with its best child, when that is less, moves the invariant to the child. */
  lemma DownStep<K(!new), V>(comp: (K, K) -> bool, a: seq<Node<K, V>>, sz: nat, idx: nat)
    requires StrictWeakOrder(comp) && DownInv(comp, a, sz, idx) && 2 * idx <= sz
    requires comp(a[BestChild(comp, a, sz, idx)].key, a[idx].key)
    ensures var best := BestChild(comp, a, sz, idx);
      DownInv(comp, Swap(a, idx, best), sz, best)
  {
    var best := BestChild(comp, a, sz, idx);
    var b := Swap(a, idx, best);
    var x, y := a[idx], a[best];
    Asym(comp, y.key, x.key);
    BestIsLeast(comp, a, sz, idx);
    forall i | 2 <= i <= sz && i / 2 != best
      ensures Below(comp, b, i)
    {
      if i == best {
      } else if i / 2 == idx {
        assert b[i] == a[i];
      } else if i == idx {
      } else {
        assert Below(comp, a, i);
      }
    }
    forall c | c == 2 * best || c == 2 * best + 1
      ensures c <= sz ==> !comp(b[c].key, b[best / 2].key)
    {
      if c <= sz {
        assert Below(comp, a, c);
      }
    }
  }

  /** `sift_down`'s whole loop state, sealed: `DownInv` and the heap's nodes so far. */
  ghost predicate DownLoop<K(!new), V>(comp: (K, K) -> bool, a: seq<Node<K, V>>, sz: nat, idx: nat, nodes: multiset<Node<K, V>>) {
    forall k {:trigger Sealed(nodes, k)} :: Sealed(nodes, k) ==>
      DownInv(comp, a, sz, idx) && sz < |a| && multiset(a[1..sz + 1]) == nodes
  }

  lemma DownLoopStart<K(!new), V>(comp: (K, K) -> bool, a: seq<Node<K, V>>, sz: nat, idx: nat)
    requires DownInv(comp, a, sz, idx)
    ensures DownLoop(comp, a, sz, idx, multiset(a[1..sz + 1]))
  {
    var nodes := multiset(a[1..sz + 1]);
    forall k | Sealed(nodes, k)
      ensures DownInv(comp, a, sz, idx) && sz < |a|
    {
    }
  }

  /** One swap of `sift_down`, over snapshots of the array before (`a`) and after (`b`). */
  lemma DownLoopStep<K(!new), V>(comp: (K, K) -> bool, a: seq<Node<K, V>>, b: seq<Node<K, V>>, sz: nat, idx: nat, best: nat, nodes: multiset<Node<K, V>>)
    requires StrictWeakOrder(comp) && DownLoop(comp, a, sz, idx, nodes) && 2 * idx <= sz < |a|
    requires best == BestChild(comp, a, sz, idx) && comp(a[best].key, a[idx].key)
    requires b == a[idx := a[best]][best := a[idx]]
    ensures DownLoop(comp, b, sz, best, nodes)
  {
    assert Sealed(nodes, 0);
    DownStep(comp, a, sz, idx);
    SwapKeepsNodes(a, sz, idx, best);
    forall k | Sealed(nodes, k)
      ensures DownInv(comp, b, sz, best) && sz < |b| && multiset(b[1..sz + 1]) == nodes
    {
    }
  }

  /** `sift_down` leaves the loop at a leaf or above children that are not less: a heap of the same nodes. */
  lemma DownLoopDone<K(!new), V>(comp: (K, K) -> bool, a: seq<Node<K, V>>, sz: nat, idx: nat, nodes: multiset<Node<K, V>>)
    requires StrictWeakOrder(comp) && DownLoop(comp, a, sz, idx, nodes) && sz < |a|
    requires 2 * idx > sz || !comp(a[BestChild(comp, a, sz, idx)].key, a[idx].key)
    ensures IsHeap(comp, a, sz) && multiset(a[1..sz + 1]) == nodes
  {
    assert Sealed(nodes, 0);
    DownDone(comp, a, sz, idx);
  }

  /** `sift_down` stops at a leaf or above children that are not less: a heap. */
  lemma DownDone<K(!new), V>(comp: (K, K) -> bool, a: seq<Node<K, V>>, sz: nat, idx: nat)
    requires StrictWeakOrder(comp) && DownInv(comp, a, sz, idx)
    requires 2 * idx > sz || !comp(a[BestChild(comp, a, sz, idx)].key, a[idx].key)
    ensures IsHeap(comp, a, sz)
  {
    if 2 * idx <= sz {
      var best := BestChild(comp, a, sz, idx);
      BestIsLeast(comp, a, sz, idx);
      forall i | 2 <= i <= sz && i / 2 == idx
        ensures Below(comp, a, i)
      {
        NotLessTrans(comp, a[i].key, a[best].key, a[idx].key);
      }
    }
  }

  /** Moving the last node to the root removes the root from the heap's nodes. */
  lemma PopNodes<T>(a: seq<T>, sz: nat)
    requires 1 <= sz < |a|
    ensures multiset(a[1 := a[sz]][1..sz]) == multiset(a[1..sz + 1]) - multiset{a[1]}
  {
    if sz == 1 {
      assert a[1 := a[sz]][1..sz] == [];
      assert a[1..sz + 1] == [a[1]];
    } else {
      assert a[1 := a[sz]][1..sz] == [a[sz]] + a[2..sz];
      assert a[1..sz + 1] == [a[1]] + a[2..sz] + [a[sz]];
    }
  }

  /** `FixedBinaryHeap<Key, Value, Capacity, Comp>`. */
  class FixedBinaryHeap<K(0,!new), V(0)> {
    /** `Capacity`. */
    const capacity: nat
    const comp: (K, K) -> bool
    /** `buf_`, 1-based; slot 0 is unused. */
    const buf: array<Node<K, V>>
    /** `sz_`. */
    var size: nat

    ghost predicate Valid()
      reads this, buf
    {
      0 < capacity && buf.Length == capacity + 1 && size <= capacity &&
      StrictWeakOrder(comp) && IsHeap(comp, buf[..], size)
    }

    /** The heap's nodes. */
    ghost function Elements(): multiset<Node<K, V>>
      reads this, buf
      requires Valid()
    {
      multiset(buf[1..size + 1])
    }

    /** An empty heap of `capacity` slots ordered by `comp`. */
    constructor (capacity: nat, comp: (K, K) -> bool)
      requires capacity > 0 && StrictWeakOrder(comp)
      ensures Valid() && this.capacity == capacity && this.comp == comp && Elements() == multiset{}
      ensures fresh(buf)
    {
      this.capacity := capacity;
      this.comp := comp;
      buf := new Node<K, V>[capacity + 1];
      size := 0;
    }

    /** `empty()`. */
    function Empty(): (e: bool)
      reads this, buf
      requires Valid()
      ensures e <==> Elements() == multiset{}
    {
      size == 0
    }

    /** `size()`: the number of nodes. */
    function Size(): (n: nat)
      reads this, buf
      requires Valid()
      ensures n == |Elements()|
    {
      size
    }

    /** `top()`: the value of a node whose key no node's key is less than. */
    function Top(): (r: V)
      reads this, buf
      requires Valid() && size > 0
      ensures exists x :: x in Elements() && x.val == r && forall y :: y in Elements() ==> !comp(y.key, x.key)
    {
      RootBelowAll(comp, buf[..], size);
      assert buf[..][1] in multiset(buf[..][1..size + 1]);
      buf[1].val
    }

    /** `sift_up(idx)`: the node at `idx` climbs while it is less than its parent. */
    method SiftUp(idx: nat)
      requires 0 < capacity && buf.Length == capacity + 1 && size <= capacity
      requires StrictWeakOrder(comp) && UpInv(comp, buf[..], size, idx)
      modifies buf
      ensures IsHeap(comp, buf[..], size)
      ensures multiset(buf[..][1..size + 1]) == old(multiset(buf[..][1..size + 1]))
    {
      var i: nat := idx;
      var sz := size;
      ghost var nodes := multiset(buf[..][1..sz + 1]);
      while i > 1
        invariant UpInv(comp, buf[..], sz, i)
        invariant multiset(buf[..][1..sz + 1]) == nodes
        decreases i
      {
        var parent := i / 2;
        if !comp(buf[i].key, buf[parent].key) {
          break;
        }
        ghost var a := buf[..];
        UpStep(comp, a, sz, i);
        SwapKeepsNodes(a, sz, i, parent);
        buf[i], buf[parent] := buf[parent], buf[i];
        assert buf[..] == Swap(a, i, parent);
        i := parent;
      }
      UpDone(comp, buf[..], sz, i);
    }

    /** `sift_down(idx)`: the node at `idx` sinks below its least child while that child is less. */
    method SiftDown(idx: nat)
      requires 0 < capacity && buf.Length == capacity + 1 && size <= capacity
      requires StrictWeakOrder(comp) && DownInv(comp, buf[..], size, idx)
      modifies buf
      ensures IsHeap(comp, buf[..], size)
      ensures multiset(buf[..][1..size + 1]) == old(multiset(buf[..][1..size + 1]))
    {
      var i: nat := idx;
      var sz := size;
      DownLoopStart(comp, buf[..], sz, idx);
      ghost var nodes := multiset(buf[..][1..sz + 1]);
      while true
        invariant 1 <= i <= sz
        invariant DownLoop(comp, buf[..], sz, i, nodes)
        decreases sz - i
      {
        var left := 2 * i;
        var right := left + 1;
        if left > sz {
          DownLoopDone(comp, buf[..], sz, i, nodes);
          return;
        }
        var best := if right <= sz && comp(buf[right].key, buf[left].key) then right else left;
        assert best == BestChild(comp, buf[..], sz, i);
        if !comp(buf[best].key, buf[i].key) {
          DownLoopDone(comp, buf[..], sz, i, nodes);
          return;
        }
        ghost var a := buf[..];
        buf[i], buf[best] := buf[best], buf[i];
        DownLoopStep(comp, a, buf[..], sz, i, best, nodes);
        i := best;
      }
    }

    /**
     * `push(k, v)`: refused, changing nothing, when `Capacity` nodes are
     * held; otherwise the node joins the heap.
     */
    method Push(k: K, v: V) returns (ok: bool)
      requires Valid()
      modifies this, buf
      ensures Valid()
      ensures ok <==> old(size) < capacity
      ensures ok ==> Elements() == old(Elements()) + multiset{Node(k, v)} && size == old(size) + 1
      ensures !ok ==> size == old(size) && buf[..] == old(buf[..])
    {
      if size >= capacity {
        return false;
      }
      UpStart(comp, buf[..], size, Node(k, v));
      assert buf[..][size + 1 := Node(k, v)][1..size + 2] == buf[1..size + 1] + [Node(k, v)];
      size := size + 1;
      buf[size] := Node(k, v);
      SiftUp(size);
      ok := true;
    }

    /**
     * `pop(out)`: nothing when the heap is empty; otherwise the root's
     * value, a node whose key no node's key is less than, which leaves the
     * heap.
     */
    method Pop() returns (r: Option<V>)
      requires Valid()
      modifies this, buf
      ensures Valid()
      ensures r.None? <==> old(size) == 0
      ensures r.None? ==> size == old(size) && buf[..] == old(buf[..])
      ensures r.Some? ==> r.value == old(buf[1]).val && size == old(size) - 1 &&
                          Elements() == old(Elements()) - multiset{old(buf[1])}
      ensures r.Some? ==> forall y :: y in old(Elements()) ==> !comp(y.key, old(buf[1]).key)
    {
      if size == 0 {
        return None;
      }
      RootBelowAll(comp, buf[..], size);
      var out := buf[1].val;
      PopNodes(buf[..], size);
      if size > 1 {
        DownStart(comp, buf[..], size - 1);
      }
      buf[1] := buf[size];
      size := size - 1;
      if size > 0 {
        SiftDown(1);
      }
      r := Some(out);
    }
  }

  /** The comparator of the heap in `lp.cpp`: `a > b`, so the root holds the greatest key. */
  lemma GreaterIsStrictWeakOrder()
    ensures StrictWeakOrder((a: int, b: int) => a > b)
  {
    SealOrder((a: int, b: int) => a > b);
  }

  /** The heap of `lp.cpp`: capacity 200, greater-than; after push(1, 10) and push(2, 20), two nodes and top 20. */
  method GreaterHeapExample() returns (size: nat, top: int)
    ensures size == 2 && top == 20
  {
    GreaterIsStrictWeakOrder();
    var heap := new FixedBinaryHeap<int, int>(200, (a: int, b: int) => a > b);
    var _ := heap.Push(1, 10);
    assert heap.Elements() == multiset{Node(1, 10)};
    var _ := heap.Push(2, 20);
    ghost var nodes := heap.Elements();
    assert nodes == multiset{Node(1, 10), Node(2, 20)};
    size := heap.Size();
    top := heap.Top();
    assert Node(2, 20) in nodes;
  }
}
