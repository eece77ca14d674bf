// The bounded FIFO ring buffer of the fixed-point engine
// (src/matching_engine/memory/async_ring_buffer.hpp), one operation at a
// time: a fixed array of `Capacity` slots and two running positions, the
// next one to write and the next one to read.
//
// The positions are unbounded naturals; `pos & INDEX_MASK` is `pos % Capacity`,
// which it equals for the powers of two the `static_assert` admits. The
// awaitables' `await_ready` / `await_resume` pair is a method that tries the
// synchronous operation and tries it once more when it failed.

module RingBuffer {
  import opened Common

  /** `(Capacity & (Capacity - 1)) == 0`: a power of two, or no slots at all. */
  predicate MaskCapacity(capacity: nat) {
    capacity == 0 || IsPowerOfTwo(capacity)
  }

  /** The items a push sequence leaves when every push that finds the buffer full is refused. */
  function Offer<T>(items: seq<T>, values: seq<T>, capacity: nat): seq<T>
    decreases |values|
  {
    if values == [] then items
    else Offer(if |items| < capacity then items + [values[0]] else items, values[1..], capacity)
  }

  /**
   * Pushing a run of values keeps the ones that fit, in their order, and
   * drops the rest: the items gain the longest prefix of `values` the free
   * slots hold.
   */
  lemma {:induction false} OfferKeepsPrefix<T>(items: seq<T>, values: seq<T>, capacity: nat)
    requires |items| <= capacity
    ensures var room := capacity - |items|;
      Offer(items, values, capacity) == items + values[..Min(|values|, room)]
    decreases |values|
  {
    if values != [] {
      var next := if |items| < capacity then items + [values[0]] else items;
      OfferKeepsPrefix(next, values[1..], capacity);
      var room := capacity - |items|;
      if |items| < capacity {
        assert values[1..][..Min(|values| - 1, room - 1)] == values[1..Min(|values|, room)];
        assert [values[0]] + values[1..Min(|values|, room)] == values[..Min(|values|, room)];
      } else {
        assert values[..Min(|values|, room)] == [];
      }
    }
  }

  /** `AsyncRingBuffer<T, Capacity>`. */
  class AsyncRingBuffer<T(0)> {
    const capacity: nat
    const buffer: array<T>
    var writePos: nat
    var readPos: nat
    /** The unread items, oldest first. */
    ghost var contents: seq<T>

    /** The unread items sit in the slots after `readPos`, wrapping around. */
    ghost predicate Valid()
      reads this, buffer
    {
      buffer.Length == capacity &&
      readPos <= writePos <= readPos + capacity &&
      |contents| == writePos - readPos &&
      forall i :: 0 <= i < |contents| ==> contents[i] == buffer[(readPos + i) % capacity]
    }

    /** An empty buffer: both positions 0. */
    constructor (capacity: nat)
      requires MaskCapacity(capacity)
      ensures Valid() && this.capacity == capacity && contents == [] && writePos == 0 && readPos == 0
      ensures fresh(buffer)
    {
      this.capacity := capacity;
      buffer := new T[capacity];
      writePos := 0;
      readPos := 0;
      contents := [];
    }

    /** `size()`: written minus read, the number of unread items. */
    function Size(): (n: nat)
      reads this, buffer
      requires Valid()
      ensures n == |contents| && n <= capacity
    {
      writePos - readPos
    }

    /** `empty()`. */
    function Empty(): (e: bool)
      reads this, buffer
      requires Valid()
      ensures e <==> contents == []
    {
      Size() == 0
    }

    /** `full()`. */
    function Full(): (f: bool)
      reads this, buffer
      requires Valid()
      ensures f <==> |contents| == capacity
    {
      Size() >= capacity
    }

    /**
     * `push`: refused, changing nothing, when `Capacity` items are unread;
     * otherwise the value goes to slot `writePos % Capacity`, `writePos`
     * advances, and the value joins the tail of the items.
     */
    method Push(value: T) returns (ok: bool)
      requires Valid()
      modifies this, buffer
      ensures Valid()
      ensures ok <==> |old(contents)| < capacity
      ensures ok ==> contents == old(contents) + [value] && writePos == old(writePos) + 1 &&
                     buffer[old(writePos) % capacity] == value
      ensures !ok ==> contents == old(contents) && writePos == old(writePos) && buffer[..] == old(buffer[..])
      ensures readPos == old(readPos)
    {
      var write := writePos;
      var read := readPos;
      if write - read >= capacity {
        return false;
      }
      buffer[write % capacity] := value;
      writePos := write + 1;
      contents := contents + [value];
      forall i | 0 <= i < |contents|
        ensures contents[i] == buffer[(readPos + i) % capacity]
      {
        if i < |contents| - 1 {
          ResidueDistinct(readPos + i, write, capacity);
        }
      }
      ok := true;
    }

    /**
     * `pop`: nothing, changing nothing, when no item is unread; otherwise
     * the oldest item, and `readPos` advances past it.
     */
    method Pop() returns (r: Option<T>)
      requires Valid()
      modifies this
      ensures Valid()
      ensures r.None? <==> old(contents) == []
      ensures r.Some? ==> r.value == old(contents)[0] && contents == old(contents)[1..] && readPos == old(readPos) + 1
      ensures r.None? ==> contents == old(contents) && readPos == old(readPos)
      ensures writePos == old(writePos)
    {
      var read := readPos;
      var write := writePos;
      if read >= write {
        return None;
      }
      var value := buffer[read % capacity];
      readPos := read + 1;
      contents := contents[1..];
      r := Some(value);
    }

    /** `push_async`: the push, and when it was refused, one more push. */
    method PushAsync(value: T) returns (ok: bool)
      requires Valid()
      modifies this, buffer
      ensures Valid()
      ensures ok <==> |old(contents)| < capacity
      ensures ok ==> contents == old(contents) + [value]
      ensures !ok ==> contents == old(contents)
    {
      ok := Push(value);
      if !ok {
        ok := Push(value);
      }
    }

    /** `pop_async`: the pop, and when it found nothing, one more pop. */
    method PopAsync() returns (r: Option<T>)
      requires Valid()
      modifies this
      ensures Valid()
      ensures r.None? <==> old(contents) == []
      ensures r.Some? ==> r.value == old(contents)[0] && contents == old(contents)[1..]
      ensures r.None? ==> contents == old(contents)
    {
      r := Pop();
      if r.None? {
        r := Pop();
      }
    }
  }
}
