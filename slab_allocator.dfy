// The free-list allocators of the intrusive order book
// (src/orderbook/allocator/slab_allocator.hpp).
//
// A slot's address is its index in the allocator's storage: for the slab
// allocator, slot `i` lives in slab `i / SlabSize` at offset `i % SlabSize`.
// The free list threads `next` links through freed slots (kept in `links`);
// constructed objects are kept in `cells`. Both allocators are modelled
// single-threaded: each compare-and-swap loop is one atomic step.

module Allocators {
  import opened Common

  type Link = Option<nat>

  /** The slot after position `i` of a chain, or null at its end. */
  function Succ(free: seq<nat>, i: nat): Link {
    if i + 1 < |free| then Some(free[i + 1]) else None
  }

  /** `free` lists the slots reachable from `head` by following `links`, without repetition. */
  ghost predicate FreeChain(head: Link, free: seq<nat>, links: map<nat, Link>) {
    (free == [] <==> head == None) &&
    (free != [] ==> head == Some(free[0])) &&
    (forall i :: 0 <= i < |free| ==> free[i] in links && links[free[i]] == Succ(free, i)) &&
    (forall i, j :: 0 <= i < j < |free| ==> free[i] != free[j])
  }

  lemma ChainAt(head: Link, free: seq<nat>, links: map<nat, Link>, i: nat)
    requires FreeChain(head, free, links) && i < |free|
    ensures free[i] in links && links[free[i]] == Succ(free, i)
  {
  }

  /** Popping the head leaves the rest of the chain intact. */
  lemma FreeChainPop(head: Link, free: seq<nat>, links: map<nat, Link>)
    requires FreeChain(head, free, links) && head.Some?
    ensures head.value in links && FreeChain(links[head.value], free[1..], links)
  {
    var rest := free[1..];
    ChainAt(head, free, links, 0);
    forall i | 0 <= i < |rest|
      ensures rest[i] in links && links[rest[i]] == Succ(rest, i)
    {
      ChainAt(head, free, links, i + 1);
    }
    forall i, j | 0 <= i < j < |rest| ensures rest[i] != rest[j] {
      assert rest[i] == free[i + 1] && rest[j] == free[j + 1];
    }
  }

  /** Pushing a slot that is not on the list yields a longer chain. */
  lemma FreeChainPush(head: Link, free: seq<nat>, links: map<nat, Link>, p: nat)
    requires FreeChain(head, free, links) && p !in free
    ensures FreeChain(Some(p), [p] + free, links[p := head])
  {
    var free' := [p] + free;
    var links' := links[p := head];
    forall i | 0 <= i < |free'|
      ensures free'[i] in links' && links'[free'[i]] == Succ(free', i)
    {
      if i > 0 {
        assert free'[i] == free[i - 1] != p;
        ChainAt(head, free, links, i - 1);
        assert Succ(free', i) == Succ(free, i - 1);
      } else if free != [] {
        assert head == Some(free[0]) && free'[1] == free[0];
      }
    }
    FreshHeadDistinct(free, p);
  }

  /** Putting a slot that is not on a repetition-free list in front of it keeps it repetition-free. */
  lemma FreshHeadDistinct(free: seq<nat>, p: nat)
    requires p !in free && forall i, j :: 0 <= i < j < |free| ==> free[i] != free[j]
    ensures forall i, j :: 0 <= i < j < |[p] + free| ==> ([p] + free)[i] != ([p] + free)[j]
  {
    var free' := [p] + free;
    forall i, j | 0 <= i < j < |free'| ensures free'[i] != free'[j] {
      if i > 0 {
        assert free'[i] == free[i - 1] && free'[j] == free[j - 1];
      } else {
        assert free'[j] == free[j - 1];
      }
    }
  }

  lemma DivBound(p: nat, s: nat)
    requires s > 0
    ensures p + 1 <= (p / s + 1) * s
  {
    assert p == (p / s) * s + p % s;
  }

  lemma MulMono(a: nat, b: nat, s: nat)
    requires a <= b
    ensures a * s <= b * s
  {
  }

  /** `SlabAllocator<T, SlabSize>`: carves slots from slabs and recycles them LIFO. */
  /**
   * Slabs of `slabSize` slots: `totalAllocated` slots carved so far, all
   * within the slabs, each either on the free list or handed out.
   */
  ghost predicate Accounted(slabSize: nat, slabCount: nat, totalAllocated: nat, freeHead: Link,
                            links: map<nat, Link>, free: seq<nat>, used: set<nat>) {
    slabSize > 0 &&
    totalAllocated <= slabCount * slabSize &&
    FreeChain(freeHead, free, links) &&
    (forall i :: 0 <= i < |free| ==> free[i] < totalAllocated && free[i] !in used) &&
    (forall a :: a in used ==> a < totalAllocated) &&
    |free| + |used| == totalAllocated
  }

  class SlabAllocator<T> {
    const slabSize: nat
    var slabCount: nat
    var totalAllocated: nat
    var freeHead: Link
    var links: map<nat, Link>
    var cells: map<nat, T>
    /** The free list, head first. */
    ghost var Free: seq<nat>
    /** Slots handed out and not yet given back. */
    ghost var Allocated: set<nat>

    ghost predicate Valid()
      reads this
    {
      slabSize > 0 && FreeValid() && cells.Keys <= Allocated
    }

    /**
     * The slab and free-list accounting, which writes to constructed objects
     * leave alone; sealed, and opened by `Open`.
     */
    ghost predicate FreeValid()
      reads this`slabCount, this`totalAllocated, this`freeHead, this`links, this`Free, this`Allocated
    {
      forall k {:trigger Sealed((slabCount, totalAllocated, freeHead, links, Free, Allocated), k)} ::
        Sealed((slabCount, totalAllocated, freeHead, links, Free, Allocated), k) ==>
        Accounted(slabSize, slabCount, totalAllocated, freeHead, links, Free, Allocated)
    }

    lemma Open()
      requires FreeValid()
      ensures Accounted(slabSize, slabCount, totalAllocated, freeHead, links, Free, Allocated)
    {
      assert Sealed((slabCount, totalAllocated, freeHead, links, Free, Allocated), 0);
    }

    lemma Close()
      requires Accounted(slabSize, slabCount, totalAllocated, freeHead, links, Free, Allocated)
      ensures FreeValid()
    {
    }

    /** The constructor pre-allocates one slab. */
    constructor (slabSize: nat)
      requires slabSize > 0
      ensures Valid() && this.slabSize == slabSize
      ensures slabCount == 1 && totalAllocated == 0
      ensures Free == [] && Allocated == {} && cells == map[]
    {
      this.slabSize := slabSize;
      slabCount := 1;
      totalAllocated := 0;
      freeHead := None;
      links := map[];
      cells := map[];
      Free := [];
      Allocated := {};
      new;
      Close();
    }

    /** `total_capacity`: slots in all slabs; never below the slots carved so far. */
    function TotalCapacity(): (r: nat)
      reads this
      requires Valid()
      ensures r >= totalAllocated
    {
      Open();
      slabCount * slabSize
    }

    /** Every slot carved so far is either on the free list or handed out. */
    lemma SlotsAccounted()
      requires Valid()
      ensures |Free| <= totalAllocated
      ensures |Allocated| == totalAllocated - |Free|
    {
      Open();
    }

    /**
     * `allocate`: the head of the free list when there is one, else the next
     * uncarved slot, adding slabs until it exists.
     */
    method Allocate() returns (p: nat)
      requires Valid()
      modifies this
      ensures Valid()
      ensures p !in old(Allocated) && Allocated == old(Allocated) + {p}
      ensures old(Free) != [] ==> p == old(Free)[0] && Free == old(Free)[1..] &&
                                  totalAllocated == old(totalAllocated) && slabCount == old(slabCount)
      ensures old(Free) == [] ==> p == old(totalAllocated) && Free == [] &&
                                  totalAllocated == old(totalAllocated) + 1
      ensures cells == old(cells)
    {
      Open();
      if freeHead.Some? {
        p := freeHead.value;
        FreeChainPop(freeHead, Free, links);
        freeHead := links[p];
        Free := Free[1..];
        Allocated := Allocated + {p};
        Close();
      } else {
        p := AllocateFromSlab();
      }
    }

    /** `allocate_from_slab`: take the next index and grow until its slab exists. */
    method AllocateFromSlab() returns (p: nat)
      requires Valid() && Free == []
      modifies this
      ensures Valid()
      ensures p == old(totalAllocated) && totalAllocated == old(totalAllocated) + 1
      ensures Allocated == old(Allocated) + {p} && Free == []
      ensures p / slabSize < slabCount
      ensures cells == old(cells)
    {
      Open();
      p := totalAllocated;
      totalAllocated := totalAllocated + 1;
      var slabIndex := p / slabSize;
      var slabs := slabCount;
      while slabIndex >= slabs
        invariant slabs >= slabCount
        decreases slabIndex - slabs
      {
        slabs := slabs + 1;
      }
      slabCount := slabs;
      assert totalAllocated <= slabCount * slabSize by {
        DivBound(p, slabSize);
        MulMono(slabIndex + 1, slabCount, slabSize);
      }
      Allocated := Allocated + {p};
      Close();
    }

    /** `deallocate`: null is ignored; otherwise the slot is pushed on the free list. */
    method Deallocate(ptr: Option<nat>)
      requires Valid()
      requires ptr.Some? ==> ptr.value in Allocated
      modifies this
      ensures Valid()
      ensures totalAllocated == old(totalAllocated) && slabCount == old(slabCount)
      ensures ptr == None ==> Free == old(Free) && Allocated == old(Allocated) && cells == old(cells)
      ensures ptr.Some? ==> Free == [ptr.value] + old(Free) && Allocated == old(Allocated) - {ptr.value} &&
                            cells == old(cells) - {ptr.value}
    {
      if ptr.None? {
        return;
      }
      var p := ptr.value;
      Open();
      assert p !in Free;
      FreeChainPush(freeHead, Free, links, p);
      links := links[p := freeHead];
      freeHead := Some(p);
      Free := [p] + Free;
      Allocated := Allocated - {p};
      cells := cells - {p};
      Close();
    }

    /** `construct`: allocate a slot and place a new object in it. */
    method Construct(v: T) returns (p: nat)
      requires Valid()
      modifies this
      ensures Valid()
      ensures p !in old(Allocated) && Allocated == old(Allocated) + {p}
      ensures old(Free) != [] ==> p == old(Free)[0] && Free == old(Free)[1..]
      ensures old(Free) == [] ==> p == old(totalAllocated) && Free == []
      ensures cells == old(cells)[p := v]
    {
      p := Allocate();
      cells := cells[p := v];
    }

    /** Writing through a pointer to a constructed object. */
    method Set(p: nat, v: T)
      requires p in cells
      modifies this`cells
      ensures cells == old(cells)[p := v]
    {
      cells := cells[p := v];
    }

    /** `destroy`: end the object's lifetime and deallocate its slot; null is ignored. */
    method Destroy(ptr: Option<nat>)
      requires Valid()
      requires ptr.Some? ==> ptr.value in Allocated
      modifies this
      ensures Valid()
      ensures totalAllocated == old(totalAllocated)
      ensures ptr == None ==> Free == old(Free) && Allocated == old(Allocated) && cells == old(cells)
      ensures ptr.Some? ==> Free == [ptr.value] + old(Free) && Allocated == old(Allocated) - {ptr.value} &&
                            cells == old(cells) - {ptr.value}
    {
      Deallocate(ptr);
    }
  }

  /** `FixedPoolAllocator<T, Capacity>`: a fixed array of slots; allocation fails when exhausted. */
  class FixedPoolAllocator<T> {
    const capacity: nat
    var freeHead: Link
    var links: map<nat, Link>
    var cells: map<nat, T>
    var allocatedCount: nat
    ghost var Free: seq<nat>
    ghost var Allocated: set<nat>

    ghost predicate Valid()
      reads this
    {
      capacity > 0 &&
      FreeChain(freeHead, Free, links) &&
      (forall i :: 0 <= i < |Free| ==> Free[i] < capacity && Free[i] !in Allocated) &&
      (forall a :: a in Allocated ==> a < capacity) &&
      |Free| + |Allocated| == capacity &&
      allocatedCount == |Allocated| &&
      cells.Keys <= Allocated
    }

    /** The constructor threads every slot onto the free list in address order. */
    constructor (capacity: nat)
      requires capacity > 0
      ensures Valid() && this.capacity == capacity
      ensures Free == seq(capacity, i => i) && Allocated == {} && cells == map[]
    {
      var l: map<nat, Link> := map[];
      var i := 0;
      while i < capacity
        invariant 0 <= i <= capacity
        invariant forall k: nat :: k in l <==> k < i
        invariant forall k :: 0 <= k < i ==> l[k] == (if k + 1 < capacity then Some(k + 1) else None)
      {
        l := l[i := if i + 1 < capacity then Some(i + 1) else None];
        i := i + 1;
      }
      this.capacity := capacity;
      freeHead := Some(0);
      links := l;
      cells := map[];
      allocatedCount := 0;
      Free := seq(capacity, i => i);
      Allocated := {};
    }

    /** `allocate`: pop the free list, or null when the pool is exhausted. */
    method Allocate() returns (p: Option<nat>)
      requires Valid()
      modifies this
      ensures Valid() && cells == old(cells)
      ensures p == None <==> old(Free) == []
      ensures p == None ==> Free == old(Free) && Allocated == old(Allocated) && allocatedCount == old(allocatedCount)
      ensures p.Some? ==> p.value == old(Free)[0] && Free == old(Free)[1..] &&
                          Allocated == old(Allocated) + {p.value} && allocatedCount == old(allocatedCount) + 1
    {
      if freeHead.None? {
        return None;
      }
      var q := freeHead.value;
      FreeChainPop(freeHead, Free, links);
      freeHead := links[q];
      Free := Free[1..];
      Allocated := Allocated + {q};
      allocatedCount := allocatedCount + 1;
      p := Some(q);
    }

    /** `deallocate`: null is ignored; otherwise push the slot and decrement the count. */
    method Deallocate(ptr: Option<nat>)
      requires Valid()
      requires ptr.Some? ==> ptr.value in Allocated
      modifies this
      ensures Valid()
      ensures ptr == None ==> Free == old(Free) && Allocated == old(Allocated) && cells == old(cells)
      ensures ptr.Some? ==> Free == [ptr.value] + old(Free) && Allocated == old(Allocated) - {ptr.value} &&
                            cells == old(cells) - {ptr.value} && allocatedCount == old(allocatedCount) - 1
    {
      if ptr.None? {
        return;
      }
      var p := ptr.value;
      assert p !in Free;
      FreeChainPush(freeHead, Free, links, p);
      links := links[p := freeHead];
      freeHead := Some(p);
      Free := [p] + Free;
      Allocated := Allocated - {p};
      cells := cells - {p};
      allocatedCount := allocatedCount - 1;
    }

    /** `construct`: null when the pool is exhausted, else a slot holding `v`. */
    method Construct(v: T) returns (p: Option<nat>)
      requires Valid()
      modifies this
      ensures Valid()
      ensures p == None <==> old(Free) == []
      ensures p == None ==> cells == old(cells) && Allocated == old(Allocated)
      ensures p.Some? ==> p.value !in old(Allocated) && Allocated == old(Allocated) + {p.value} &&
                          cells == old(cells)[p.value := v]
    {
      p := Allocate();
      if p.Some? {
        cells := cells[p.value := v];
      }
    }

    /** `destroy`: null is ignored; otherwise the slot goes back to the pool. */
    method Destroy(ptr: Option<nat>)
      requires Valid()
      requires ptr.Some? ==> ptr.value in Allocated
      modifies this
      ensures Valid()
      ensures ptr == None ==> Free == old(Free) && Allocated == old(Allocated) && cells == old(cells)
      ensures ptr.Some? ==> Free == [ptr.value] + old(Free) && Allocated == old(Allocated) - {ptr.value} &&
                            cells == old(cells) - {ptr.value}
    {
      Deallocate(ptr);
    }

    /** `available_count`: capacity minus the live allocations, which is the free list's length. */
    function AvailableCount(): (r: nat)
      reads this
      requires Valid()
      ensures r == |Free| && r + allocatedCount == capacity
    {
      capacity - allocatedCount
    }

    /** Allocation succeeds exactly when slots are available. */
    lemma AllocateSucceedsWhenAvailable()
      requires Valid()
      ensures AvailableCount() > 0 <==> freeHead.Some?
    {
    }
  }

  /** A pool of one slot: the second allocation fails until the first slot is returned. */
  method FixedPoolExhaustion() returns (first: Option<nat>, second: Option<nat>, third: Option<nat>)
    ensures first == Some(0) && second == None && third == Some(0)
  {
    var pool := new FixedPoolAllocator<int>(1);
    first := pool.Allocate();
    second := pool.Allocate();
    pool.Deallocate(first);
    third := pool.Allocate();
  }
}
