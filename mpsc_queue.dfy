// The multi-producer single-consumer queues (namespace `orderbook`,
// src/orderbook/concurrent/mpsc_queue.hpp), with their single-threaded
// effect: every atomic load, store, exchange and compare-exchange happens
// at once, and a compare-exchange never fails.

module Mpsc {
  import opened Common

  // ---------------------------------------------------------------------
  // MPSCQueue: Vyukov's node-based queue

  /** A queue node; the first node of a queue is a dummy whose data is never read. */
  class Node<T(0)> {
    var next: Node?<T>
    var data: T

    constructor Dummy()
      ensures next == null
    {
      next := null;
    }

    constructor (value: T)
      ensures next == null && data == value
    {
      next := null;
      data := value;
    }
  }

  /**
   * `MPSCQueue`: producers link new nodes after `head`, the consumer reads
   * the node after `tail` (the last consumed node, first a dummy).
   */
  class MPSCQueue<T(0)> {
    var head: Node<T>
    var tail: Node<T>
    /** The chain from `tail` to `head`. */
    ghost var nodes: seq<Node<T>>
    /** The items enqueued and not yet dequeued, oldest first. */
    ghost var contents: seq<T>
    ghost var Repr: set<object>

    ghost predicate Valid()
      reads this, Repr
    {
      |nodes| == |contents| + 1 &&
      (forall i :: 0 <= i < |nodes| ==> nodes[i] in Repr) &&
      nodes[0] == tail && nodes[|nodes| - 1] == head &&
      (forall i, j :: 0 <= i < j < |nodes| ==> nodes[i] != nodes[j]) &&
      (forall i :: 0 <= i < |nodes| - 1 ==> nodes[i].next == nodes[i + 1]) &&
      head.next == null &&
      (forall i :: 0 <= i < |contents| ==> nodes[i + 1].data == contents[i])
    }

    /** A new queue holds only its dummy node. */
    constructor ()
      ensures Valid() && fresh(Repr) && contents == []
    {
      var dummy := new Node<T>.Dummy();
      head := dummy;
      tail := dummy;
      nodes := [dummy];
      contents := [];
      Repr := {dummy};
    }

    /** `enqueue` / `enqueue_node`: swap in the new node as `head`, then link the old head to it. */
    method Enqueue(value: T)
      requires Valid()
      modifies this, head
      ensures Valid() && fresh(Repr - old(Repr))
      ensures contents == old(contents) + [value]
    {
      var node := new Node(value);
      var prevHead := head;
      head := node;
      prevHead.next := node;
      nodes := nodes + [node];
      contents := contents + [value];
      Repr := Repr + {node};
    }

    /** `try_dequeue`: take the item after `tail` and make its node the new dummy; nothing when empty. */
    method TryDequeue() returns (r: Option<T>)
      requires Valid()
      modifies this
      ensures Valid() && Repr <= old(Repr)
      ensures old(contents) == [] ==> r == None && contents == []
      ensures old(contents) != [] ==> r == Some(old(contents)[0]) && contents == old(contents)[1..]
    {
      var t := tail;
      var next := t.next;
      if next == null {
        return None;
      }
      var value := next.data;
      tail := next;
      nodes := nodes[1..];
      contents := contents[1..];
      Repr := Repr - {t};
      r := Some(value);
    }

    /** `dequeue_spin` once an item is pending: the oldest item. */
    method DequeueSpin() returns (value: T)
      requires Valid() && contents != []
      modifies this
      ensures Valid() && Repr <= old(Repr)
      ensures value == old(contents)[0] && contents == old(contents)[1..]
    {
      var r := TryDequeue();
      value := r.value;
    }

    /** `empty`: nothing follows `tail`. */
    function Empty(): (e: bool)
      reads this, Repr
      requires Valid()
      ensures e <==> contents == []
    {
      assert contents != [] ==> tail.next == nodes[1];
      tail.next == null
    }

    /** `approx_size`: walk the chain after `tail` and count. */
    method ApproxSize() returns (count: nat)
      requires Valid()
      ensures count == |contents|
    {
      count := 0;
      var current := tail.next;
      while current != null
        invariant count <= |contents|
        invariant current == if count < |contents| then nodes[count + 1] else null
        decreases |contents| - count
      {
        count := count + 1;
        current := current.next;
      }
    }
  }

  // ---------------------------------------------------------------------
  // BoundedMPSCQueue: a ring of sequence-numbered slots

  /** A ring slot: the position it waits for (`pos` when free, `pos + 1` when filled) and its item. */
  datatype Slot<T> = Slot(sequence: int, data: T)

  /** The bounded queue's state: the slots and the two running positions. */
  datatype Ring<T> = Ring(slots: seq<Slot<T>>, enq: nat, deq: nat)

  /** The slot position `p` maps to: `buffer_[p & (Capacity - 1)]`, that is `p` modulo the capacity. */
  function At<T>(r: Ring<T>, p: nat): Slot<T>
    requires |r.slots| > 0
  {
    r.slots[p % |r.slots|]
  }

  /**
   * The ring of a working queue: at most a capacity of items pending; the
   * slots of pending positions hold `p + 1`, those of the next free positions
   * hold `p`.
   */
  ghost predicate RingInv<T>(r: Ring<T>) {
    |r.slots| >= 2 && r.deq <= r.enq <= r.deq + |r.slots| &&
    (forall p: nat :: r.deq <= p < r.enq ==> At(r, p).sequence == p + 1) &&
    (forall p: nat :: r.enq <= p < r.deq + |r.slots| ==> At(r, p).sequence == p)
  }

  /** The pending items, oldest first. */
  ghost function Items<T>(r: Ring<T>): (items: seq<T>)
    requires |r.slots| > 0 && r.deq <= r.enq
    ensures |items| == r.enq - r.deq
  {
    seq(r.enq - r.deq, i requires 0 <= i < r.enq - r.deq => At(r, r.deq + i).data)
  }

  /** The constructor's ring: slot `i` waits for position `i`. */
  function InitRing<T>(capacity: nat, d: T): (r: Ring<T>)
    ensures |r.slots| == capacity
  {
    Ring(seq(capacity, i => Slot(i, d)), 0, 0)
  }

  /**
   * `try_enqueue` without contention: claim the slot when it waits for this
   * position, give up when it is behind. A slot ahead of the position would
   * mean another producer claimed it, which cannot happen here.
   */
  function TryEnq<T>(r: Ring<T>, v: T): (Ring<T>, bool)
    requires |r.slots| > 0 && At(r, r.enq).sequence <= r.enq
  {
    var i := r.enq % |r.slots|;
    var diff := r.slots[i].sequence - r.enq;
    if diff == 0 then (Ring(r.slots[i := Slot(r.enq + 1, v)], r.enq + 1, r.deq), true)
    else (r, false)
  }

  /** `try_dequeue`: take the item when its slot is filled for this position and free the slot for a lap later. */
  function TryDeq<T>(r: Ring<T>): (Ring<T>, Option<T>)
    requires |r.slots| > 0
  {
    var i := r.deq % |r.slots|;
    var diff := r.slots[i].sequence - (r.deq + 1);
    if diff == 0 then (Ring(r.slots[i := r.slots[i].(sequence := r.deq + |r.slots|)], r.enq, r.deq + 1), Some(r.slots[i].data))
    else (r, None)
  }

  /** The constructor's ring is a working queue with nothing pending. */
  lemma InitRingInv<T>(capacity: nat, d: T)
    requires capacity >= 2
    ensures RingInv(InitRing(capacity, d)) && Items(InitRing(capacity, d)) == []
  {
    var r := InitRing(capacity, d);
    forall p: nat | r.enq <= p < r.deq + capacity ensures At(r, p).sequence == p {
      assert p % capacity == p;
    }
  }

  /** On a working queue the slot at the enqueue position is never ahead, and waits for it exactly when the ring is not full. */
  lemma EnqSlot<T>(r: Ring<T>)
    requires RingInv(r)
    ensures At(r, r.enq).sequence <= r.enq
    ensures At(r, r.enq).sequence == r.enq <==> r.enq < r.deq + |r.slots|
  {
    var c := |r.slots|;
    if r.enq == r.deq + c {
      ResidueLap(r.deq, c);
      assert At(r, r.enq) == At(r, r.deq);
    }
  }

  /** A successful enqueue keeps the ring working and appends the item. */
  lemma EnqAppends<T>(r: Ring<T>, v: T)
    requires RingInv(r) && r.enq < r.deq + |r.slots|
    ensures At(r, r.enq).sequence == r.enq
    ensures RingInv(TryEnq(r, v).0) && Items(TryEnq(r, v).0) == Items(r) + [v]
  {
    var c := |r.slots|;
    EnqSlot(r);
    var r' := Ring(r.slots[r.enq % c := Slot(r.enq + 1, v)], r.enq + 1, r.deq);
    assert TryEnq(r, v).0 == r';
    forall p: nat | r'.deq <= p < r'.enq ensures At(r', p).sequence == p + 1 {
      if p != r.enq {
        ResidueDistinct(p, r.enq, c);
        assert At(r', p) == At(r, p);
      }
    }
    forall p: nat | r'.enq <= p < r'.deq + c ensures At(r', p).sequence == p {
      ResidueDistinct(r.enq, p, c);
      assert At(r', p) == At(r, p);
    }
    forall k | 0 <= k < |Items(r')| ensures Items(r')[k] == (Items(r) + [v])[k] {
      if r.deq + k != r.enq {
        ResidueDistinct(r.deq + k, r.enq, c);
      }
    }
  }

  /**
   * `try_enqueue` on a working queue: it never spins, it succeeds exactly
   * when fewer than a capacity of items are pending, a success appends the
   * item, and a refusal changes nothing.
   */
  lemma TryEnqFifo<T>(r: Ring<T>, v: T)
    requires RingInv(r)
    ensures At(r, r.enq).sequence <= r.enq
    ensures RingInv(TryEnq(r, v).0)
    ensures TryEnq(r, v).1 <==> |Items(r)| < |r.slots|
    ensures TryEnq(r, v).1 ==> Items(TryEnq(r, v).0) == Items(r) + [v]
    ensures !TryEnq(r, v).1 ==> TryEnq(r, v).0 == r
  {
    EnqSlot(r);
    if r.enq < r.deq + |r.slots| {
      EnqAppends(r, v);
    }
  }

  /** A successful dequeue keeps the ring working and removes the oldest item. */
  lemma DeqRemoves<T>(r: Ring<T>)
    requires RingInv(r) && r.deq < r.enq
    ensures At(r, r.deq).sequence == r.deq + 1
    ensures RingInv(TryDeq(r).0) && Items(TryDeq(r).0) == Items(r)[1..]
  {
    var c := |r.slots|;
    var i := r.deq % c;
    assert At(r, r.deq).sequence == r.deq + 1;
    var r' := Ring(r.slots[i := r.slots[i].(sequence := r.deq + c)], r.enq, r.deq + 1);
    assert TryDeq(r).0 == r';
    forall p: nat | r'.deq <= p < r'.enq ensures At(r', p).sequence == p + 1 {
      ResidueDistinct(r.deq, p, c);
      assert At(r', p) == At(r, p);
    }
    forall p: nat | r'.enq <= p < r'.deq + c ensures At(r', p).sequence == p {
      if p == r.deq + c {
        ResidueLap(r.deq, c);
      } else {
        ResidueDistinct(r.deq, p, c);
        assert At(r', p) == At(r, p);
      }
    }
    forall k | 0 <= k < |Items(r')| ensures Items(r')[k] == Items(r)[k + 1] {
      ResidueDistinct(r.deq, r.deq + 1 + k, c);
    }
  }

  /**
   * `try_dequeue` on a working queue: nothing exactly when nothing is
   * pending (and then nothing changes); otherwise the oldest item, which
   * leaves the pending items.
   */
  lemma TryDeqFifo<T>(r: Ring<T>)
    requires RingInv(r)
    ensures RingInv(TryDeq(r).0)
    ensures TryDeq(r).1.None? <==> Items(r) == []
    ensures TryDeq(r).1.None? ==> TryDeq(r).0 == r
    ensures TryDeq(r).1.Some? ==> TryDeq(r).1.value == Items(r)[0] && Items(TryDeq(r).0) == Items(r)[1..]
  {
    if r.deq < r.enq {
      DeqRemoves(r);
    } else {
      assert At(r, r.deq).sequence == r.deq;
    }
  }

  /**
   * With a capacity of one (a power of two the `static_assert` admits) the
   * ring breaks: the second enqueue finds the filled slot's sequence equal to
   * its own position and overwrites the first item, two items count as
   * pending in one slot, and dequeue then never finds an item.
   */
  lemma CapacityOneOverwrites<T>(d: T, a: T, b: T)
    ensures var r0 := InitRing(1, d);
      At(r0, r0.enq).sequence <= r0.enq &&
      var (r1, ok1) := TryEnq(r0, a);
      At(r1, r1.enq).sequence <= r1.enq &&
      var (r2, ok2) := TryEnq(r1, b);
      ok1 && ok2 && r2.enq - r2.deq == 2 && TryDeq(r2).1 == None &&
      TryDeq(r1).1 == Some(a)
  {
  }

  /** `BoundedMPSCQueue`: a ring buffer of `capacity` slots and the enqueue and dequeue positions. */
  class BoundedMPSCQueue<T(0)> {
    const capacity: nat
    const buffer: array<Slot<T>>
    var enqueuePos: nat
    var dequeuePos: nat

    ghost function State(): Ring<T>
      reads this, buffer
    {
      Ring(buffer[..], enqueuePos, dequeuePos)
    }

    ghost predicate Valid()
      reads this, buffer
    {
      buffer.Length == capacity && RingInv(State())
    }

    /** Slot `i` starts waiting for position `i`; a capacity of at least two keeps the ring working. */
    constructor (capacity: nat)
      requires capacity >= 2 && IsPowerOfTwo(capacity)
      ensures Valid() && fresh(buffer) && Items(State()) == []
    {
      this.capacity := capacity;
      buffer := new Slot<T>[capacity];
      new;
      for i := 0 to capacity
        invariant forall j :: 0 <= j < i ==> buffer[j].sequence == j
      {
        buffer[i] := buffer[i].(sequence := i);
      }
      enqueuePos := 0;
      dequeuePos := 0;
      forall p: nat | 0 <= p < capacity ensures At(State(), p).sequence == p {
        assert p % capacity == p;
      }
    }

    /** `try_enqueue`. */
    method TryEnqueue(value: T) returns (ok: bool)
      requires Valid()
      modifies this, buffer
      ensures Valid()
      ensures At(old(State()), old(enqueuePos)).sequence <= old(enqueuePos)
      ensures (State(), ok) == TryEnq(old(State()), value)
      ensures ok <==> |old(Items(State()))| < capacity
      ensures Items(State()) == if ok then old(Items(State())) + [value] else old(Items(State()))
    {
      TryEnqFifo(State(), value);
      var pos := enqueuePos;
      var sequence := buffer[pos % capacity].sequence;
      var diff := sequence - pos;
      if diff == 0 {
        enqueuePos := pos + 1;
        buffer[pos % capacity] := Slot(pos + 1, value);
        ok := true;
      } else {
        ok := false;
      }
    }

    /** `try_dequeue`. */
    method TryDequeue() returns (r: Option<T>)
      requires Valid()
      modifies this, buffer
      ensures Valid()
      ensures (State(), r) == TryDeq(old(State()))
      ensures r.None? <==> old(Items(State())) == []
      ensures r.Some? ==> r.value == old(Items(State()))[0] && Items(State()) == old(Items(State()))[1..]
    {
      TryDeqFifo(State());
      var pos := dequeuePos;
      var slot := buffer[pos % capacity];
      var diff := slot.sequence - (pos + 1);
      if diff == 0 {
        buffer[pos % capacity] := slot.(sequence := pos + capacity);
        dequeuePos := pos + 1;
        r := Some(slot.data);
      } else {
        r := None;
      }
    }

    /** `approx_size`: enqueue position minus dequeue position, never above the capacity. */
    function ApproxSize(): (n: nat)
      reads this, buffer
      requires Valid()
      ensures n == |Items(State())| && n <= capacity
    {
      enqueuePos - dequeuePos
    }
  }
}
