// The Fenwick (binary indexed) tree of the practice data structures
// (src/language_practice/some_ds.hpp): `N` elements kept as `N + 1` partial
// sums, slot `j` (1-based) holding the elements in `[j - lowbit(j), j)`.
//
// `T` is `int` (no wrap-around); `idx & -idx` is `LowBit(idx)`, the largest
// power of two dividing `idx`, which the two's-complement expression
// computes for every positive `idx`.

module Fenwick {
  import opened Common

  /** `i & -i` for a positive `i`: the largest power of two that divides `i`. */
  function LowBit(i: nat): (b: nat)
    requires i >= 1
    ensures 1 <= b <= i
    decreases i
  {
    if i % 2 == 1 then 1 else 2 * LowBit(i / 2)
  }

  /** `x` is `b` times `q` exactly: it divides with quotient `q` and no remainder. */
  lemma DivExact(x: int, b: int, q: int)
    requires b > 0 && x == b * q
    ensures x % b == 0 && x / b == q
  {
    DivMod(x, b);
    var k := x / b - q;
    assert b * k == -(x % b);
    MultipleGap(b, -k);
    assert b * k == 0;
  }

  /** `LowBit(i)` is a power of two that divides `i` and leaves an odd quotient: the largest one. */
  lemma {:induction false} LowBitDividesOddly(i: nat)
    requires i >= 1
    ensures IsPowerOfTwo(LowBit(i))
    ensures i % LowBit(i) == 0 && (i / LowBit(i)) % 2 == 1
    decreases i
  {
    if i % 2 == 1 {
      assert LowBit(i) == 1;
      DivExact(i, 1, i);
    } else {
      var h := i / 2;
      LowBitDividesOddly(h);
      var b' := LowBit(h);
      assert LowBit(i) == 2 * b';
      assert IsPowerOfTwo(2 * b') by {
        assert (2 * b') / 2 == b';
      }
      var q := h / b';
      DivMod(h, b');
      DoubleFactor(i, h, b', q);
      DivExact(i, 2 * b', q);
    }
  }

  /** Doubling one factor of `h` gives `2 * h`. */
  lemma DoubleFactor(i: int, h: int, b: int, q: int)
    requires i == 2 * h && h == b * q
    ensures i == (2 * b) * q
  {
  }

  /** Below the low bit of `c`, adding `d` to `c` leaves the low bit of `d`. */
  lemma {:induction false} LowBitGap(c: nat, j: nat)
    requires c >= 1 && c < j < c + LowBit(c)
    ensures LowBit(j) == LowBit(j - c)
    decreases c
  {
    if (j - c) % 2 == 0 {
      assert c % 2 == 0 && j % 2 == 0;
      LowBitGap(c / 2, j / 2);
      assert j / 2 - c / 2 == (j - c) / 2;
    }
  }

  /** Adding the low bit carries: the next slot's low bit is at least twice as large. */
  lemma {:induction false} LowBitNext(c: nat)
    requires c >= 1
    ensures LowBit(c + LowBit(c)) >= 2 * LowBit(c)
    decreases c
  {
    if c % 2 == 0 {
      LowBitNext(c / 2);
      assert (c + LowBit(c)) / 2 == c / 2 + LowBit(c / 2);
    }
  }

  /** Adding `d` to the element at `k` adds `d` to the sum of every slice holding `k`, and nothing to the others. */
  lemma {:induction false} SumBump(s: seq<int>, k: nat, d: int, a: nat, b: nat)
    requires a <= b <= |s| && k < |s|
    ensures Sum(s[k := s[k] + d][a..b]) == Sum(s[a..b]) + (if a <= k < b then d else 0)
    decreases b - a
  {
    var t := s[k := s[k] + d];
    if a < b {
      SumBump(s, k, d, a, b - 1);
      assert t[a..b][..b - a - 1] == t[a..b - 1];
      assert s[a..b][..b - a - 1] == s[a..b - 1];
    } else {
      assert t[a..b] == [] && s[a..b] == [];
    }
  }

  /** `range_sum`'s arithmetic: the sum over `[l, r]` is the prefix to `r` less the prefix before `l`. */
  lemma RangeIsDifference(s: seq<int>, l: nat, r: nat)
    requires l <= r < |s|
    ensures Sum(s[l..r + 1]) == Sum(s[..r + 1]) - (if l > 0 then Sum(s[..l]) else 0)
  {
    SumSplit(s, 0, l, r + 1);
    assert s[0..r + 1] == s[..r + 1] && s[0..l] == s[..l];
    if l == 0 {
      assert s[..0] == [];
    }
  }

  /** Every index of the run is below `n`, as `add` asserts. */
  predicate InBounds(n: nat, adds: seq<(nat, int)>) {
    forall i :: 0 <= i < |adds| ==> adds[i].0 < n
  }

  /** The elements after a run of `add(idx, delta)` calls on a fresh tree of `n` elements. */
  function Applied(n: nat, adds: seq<(nat, int)>): (s: seq<int>)
    requires InBounds(n, adds)
    ensures |s| == n
    decreases |adds|
  {
    if adds == [] then seq(n, _ => 0)
    else
      var s := Applied(n, adds[..|adds| - 1]);
      var (k, d) := adds[|adds| - 1];
      s[k := s[k] + d]
  }

  /** The deltas added at index `i`, in the order they were added. */
  function DeltasAt(adds: seq<(nat, int)>, i: nat): seq<int>
    decreases |adds|
  {
    if adds == [] then []
    else
      var (k, d) := adds[|adds| - 1];
      DeltasAt(adds[..|adds| - 1], i) + (if k == i then [d] else [])
  }

  /** Each element is the sum of the deltas added at its index. */
  lemma {:induction false} AppliedIsDeltaSum(n: nat, adds: seq<(nat, int)>, i: nat)
    requires InBounds(n, adds) && i < n
    ensures Applied(n, adds)[i] == Sum(DeltasAt(adds, i))
    decreases |adds|
  {
    if adds != [] {
      AppliedIsDeltaSum(n, adds[..|adds| - 1], i);
      var (k, d) := adds[|adds| - 1];
      var prev := DeltasAt(adds[..|adds| - 1], i);
      if k == i {
        assert (prev + [d])[..|prev|] == prev;
      } else {
        assert prev + [] == prev;
      }
    }
  }

  /** The partial sum slot `j` stands for: the `LowBit(j)` elements of `v` ending just before position `j`. */
  ghost function SlotSum(v: seq<int>, j: nat): int
    requires 1 <= j <= |v|
  {
    Sum(v[j - LowBit(j)..j])
  }

  /** Slots `lo..hi-1` of `b` hold their partial sums of `v` (where `v` is long enough to have them). */
  ghost predicate SlotsHold(b: seq<int>, v: seq<int>, lo: nat, hi: nat)
  {
    forall j :: 1 <= lo <= j < hi && j < |b| && j <= |v| ==> b[j] == SlotSum(v, j)
  }

  /**
   * The state of `add(idx, delta)`'s loop before it visits slot `i`: slot
   * `i` holds `idx`; the slots before `i` hold their sums of the changed
   * elements `v[idx := v[idx] + delta]`, the slots from `i` on their sums
   * of `v`.
   */
  ghost predicate Visiting(b: seq<int>, v: seq<int>, idx: nat, delta: int, i: nat) {
    idx < |v| && |b| == |v| + 1 && 1 <= i && i - LowBit(i) <= idx < i &&
    SlotsHold(b, v[idx := v[idx] + delta], 1, i) && SlotsHold(b, v, i, |b|)
  }

  /** `Visiting`, kept behind `Sealed` so that the loop sees it only through the lemmas below. */
  ghost predicate AddLoop(b: seq<int>, v: seq<int>, idx: nat, delta: int, i: nat) {
    forall k {:trigger Sealed(i, k)} :: Sealed(i, k) ==> Visiting(b, v, idx, delta, i)
  }

  /** Closes `AddLoop` over `Visiting`. */
  lemma SealAddLoop(b: seq<int>, v: seq<int>, idx: nat, delta: int, i: nat)
    requires Visiting(b, v, idx, delta, i)
    ensures AddLoop(b, v, idx, delta, i)
  {
    forall k | Sealed(i, k)
      ensures Visiting(b, v, idx, delta, i)
    {
    }
  }

  /** Before `add`'s loop: the slots below `idx + 1` do not hold `idx`, so their sums are the same after the change. */
  lemma AddStart(b: seq<int>, v: seq<int>, idx: nat, delta: int)
    requires idx < |v| && |b| == |v| + 1 && SlotsHold(b, v, 1, |b|)
    ensures AddLoop(b, v, idx, delta, idx + 1)
  {
    forall j | 1 <= j < idx + 1
      ensures SlotSum(v[idx := v[idx] + delta], j) == SlotSum(v, j)
    {
      SumBump(v, idx, delta, j - LowBit(j), j);
    }
    SealAddLoop(b, v, idx, delta, idx + 1);
  }

  /**
   * One pass of `add`'s loop: slot `i` holds `idx`, so it gains `delta`;
   * the slots strictly between `i` and `i + LowBit(i)` do not hold `idx`.
   */
  lemma AddStep(b: seq<int>, v: seq<int>, idx: nat, delta: int, i: nat)
    requires AddLoop(b, v, idx, delta, i) && i < |b|
    ensures i >= 1 && AddLoop(b[i := b[i] + delta], v, idx, delta, i + LowBit(i))
  {
    assert Sealed(i, 0);
    VisitSlot(b, v, idx, delta, i);
    SealAddLoop(b[i := b[i] + delta], v, idx, delta, i + LowBit(i));
  }

  /** `AddStep` on the plain statement: the slots below `i`, slot `i`, the slots it skips and the slots above, each by its own lemma. */
  lemma VisitSlot(b: seq<int>, v: seq<int>, idx: nat, delta: int, i: nat)
    requires Visiting(b, v, idx, delta, i) && i < |b|
    ensures Visiting(b[i := b[i] + delta], v, idx, delta, i + LowBit(i))
  {
    var w := v[idx := v[idx] + delta];
    var b' := b[i := b[i] + delta];
    var next := i + LowBit(i);
    LowBitNext(i);
    HoldFrame(b, w, i, b[i] + delta, 1, i);
    HoldWithin(b, v, i, |b|, i, i + 1);
    VisitedSlot(b, v, idx, delta, i);
    HoldWithin(b, v, i, |b|, i + 1, next);
    SkippedSlots(b, v, idx, delta, i);
    HoldFrame(b, w, i, b[i] + delta, i + 1, next);
    HoldWithin(b, v, i, |b|, next, |b|);
    HoldFrame(b, v, i, b[i] + delta, next, |b|);
    HoldJoin(b', w, 1, i, i + 1);
    HoldJoin(b', w, 1, i + 1, next);
  }

  /** A run of slots that hold their sums keeps holding them in any sub-run. */
  lemma HoldWithin(b: seq<int>, v: seq<int>, lo: nat, hi: nat, lo': nat, hi': nat)
    requires SlotsHold(b, v, lo, hi) && 1 <= lo <= lo' && (hi' <= hi || |b| <= hi)
    ensures SlotsHold(b, v, lo', hi')
  {
  }

  /** Two adjacent runs of slots that hold their sums make one. */
  lemma HoldJoin(b: seq<int>, v: seq<int>, lo: nat, mid: nat, hi: nat)
    requires 1 <= lo <= mid && SlotsHold(b, v, lo, mid) && SlotsHold(b, v, mid, hi)
    ensures SlotsHold(b, v, lo, hi)
  {
  }

  /** Writing slot `i` leaves every run of slots without `i` as it was. */
  lemma HoldFrame(b: seq<int>, v: seq<int>, i: nat, x: int, lo: nat, hi: nat)
    requires SlotsHold(b, v, lo, hi) && i < |b| && (i < lo || hi <= i)
    ensures SlotsHold(b[i := x], v, lo, hi)
  {
  }

  /** Slot `i` holds `idx`, so adding `delta` to it gives its sum of the changed elements. */
  lemma VisitedSlot(b: seq<int>, v: seq<int>, idx: nat, delta: int, i: nat)
    requires idx < |v| && |b| == |v| + 1 && 1 <= i < |b| && i - LowBit(i) <= idx < i
    requires SlotsHold(b, v, i, i + 1)
    ensures SlotsHold(b[i := b[i] + delta], v[idx := v[idx] + delta], i, i + 1)
  {
    assert b[i] == SlotSum(v, i);
    SumBump(v, idx, delta, i - LowBit(i), i);
  }

  /** The slots strictly between `i` and `i + LowBit(i)` have the same sums of the changed elements. */
  lemma SkippedSlots(b: seq<int>, v: seq<int>, idx: nat, delta: int, i: nat)
    requires idx < |v| && |b| == |v| + 1 && 1 <= i && idx < i
    requires SlotsHold(b, v, i + 1, i + LowBit(i))
    ensures SlotsHold(b, v[idx := v[idx] + delta], i + 1, i + LowBit(i))
  {
    forall j | i + 1 <= j < i + LowBit(i) && j < |b|
      ensures SlotSum(v[idx := v[idx] + delta], j) == SlotSum(v, j)
    {
      SkipSlot(v, idx, delta, i, j);
    }
  }

  /** At the loop's exit every slot holds its sum of the changed elements. */
  lemma AddDone(b: seq<int>, v: seq<int>, idx: nat, delta: int, i: nat)
    requires AddLoop(b, v, idx, delta, i) && i >= |b|
    ensures idx < |v| && SlotsHold(b, v[idx := v[idx] + delta], 1, |b|)
  {
    assert Sealed(i, 0);
  }

  /** A slot strictly between `i` and `i + LowBit(i)` starts after `i`, so it does not hold an `idx` below `i`. */
  lemma SkipSlot(v: seq<int>, idx: nat, delta: int, i: nat, j: nat)
    requires idx < |v| && 1 <= i && idx < i < j < i + LowBit(i) && j <= |v|
    ensures SlotSum(v[idx := v[idx] + delta], j) == SlotSum(v, j)
  {
    LowBitGap(i, j);
    assert LowBit(j) <= j - i;
    SumBump(v, idx, delta, j - LowBit(j), j);
    assert !(j - LowBit(j) <= idx < j);
  }

  /** `FixedFenwickTree<T, N>`. */
  class FixedFenwickTree {
    /** `N`. */
    const n: nat
    /** `bit_`, 1-based; slot 0 is unused. */
    const bit: array<int>
    /** The elements the partial sums stand for. */
    ghost var vals: seq<int>

    /** Slot `j` holds the sum of the `LowBit(j)` elements ending just before position `j`. */
    ghost predicate Valid()
      reads this, bit
    {
      bit.Length == n + 1 && |vals| == n && SlotsHold(bit[..], vals, 1, n + 1)
    }

    /** The constructor: every slot 0, every element 0. */
    constructor (n: nat)
      requires n > 0
      ensures Valid() && this.n == n && vals == seq(n, _ => 0)
      ensures fresh(bit)
    {
      this.n := n;
      bit := new int[n + 1](_ => 0);
      vals := seq(n, _ => 0);
      new;
      forall j | 1 <= j <= n
        ensures bit[..][j] == SlotSum(vals, j)
      {
        SumZeros(vals[j - LowBit(j)..j]);
      }
    }

    /**
     * `add(idx, delta)`: the element at `idx` grows by `delta`; the loop
     * visits exactly the slots whose range holds `idx`.
     */
    method Add(idx: nat, delta: int)
      requires Valid() && idx < n
      modifies this, bit
      ensures Valid()
      ensures vals == old(vals)[idx := old(vals)[idx] + delta]
    {
      ghost var before := vals;
      AddStart(bit[..], before, idx, delta);
      var i := idx + 1;
      while i <= n
        invariant i >= 1 && AddLoop(bit[..], before, idx, delta, i)
        decreases n + 1 - i
      {
        ghost var b := bit[..];
        bit[i] := bit[i] + delta;
        assert bit[..] == b[i := b[i] + delta];
        AddStep(b, before, idx, delta, i);
        i := i + LowBit(i);
      }
      AddDone(bit[..], before, idx, delta, i);
      vals := before[idx := before[idx] + delta];
    }

    /** `prefix_sum(idx)`: the sum of the elements at `0..idx`. */
    method PrefixSum(idx: nat) returns (res: int)
      requires Valid() && idx < n
      ensures res == Sum(vals[..idx + 1])
    {
      res := 0;
      var i := idx + 1;
      while i > 0
        invariant 0 <= i <= idx + 1
        invariant res + Sum(vals[..i]) == Sum(vals[..idx + 1])
        decreases i
      {
        res := res + bit[i];
        SumSplit(vals, 0, i - LowBit(i), i);
        assert vals[0..i] == vals[..i] && vals[0..i - LowBit(i)] == vals[..i - LowBit(i)];
        i := i - LowBit(i);
      }
      assert vals[..0] == [];
    }

    /** `range_sum(l, r)`: the sum of the elements at `l..r`. */
    method RangeSum(l: nat, r: nat) returns (res: int)
      requires Valid() && l <= r < n
      ensures res == Sum(vals[l..r + 1])
    {
      var upTo := PrefixSum(r);
      var before := 0;
      if l > 0 {
        before := PrefixSum(l - 1);
      }
      RangeIsDifference(vals, l, r);
      res := upTo - before;
    }
  }

  /**
   * A run of `add` calls on a fresh tree of `n` elements: the tree's
   * elements are `Applied(n, adds)` after the whole run.
   */
  method AddAll(n: nat, adds: seq<(nat, int)>) returns (t: FixedFenwickTree)
    requires n > 0 && InBounds(n, adds)
    ensures fresh(t) && fresh(t.bit) && t.Valid() && t.n == n
    ensures t.vals == Applied(n, adds)
  {
    t := new FixedFenwickTree(n);
    var i := 0;
    while i < |adds|
      invariant i <= |adds| && fresh(t) && fresh(t.bit)
      invariant t.Valid() && t.n == n
      invariant t.vals == Applied(n, adds[..i])
    {
      assert adds[..i + 1][..i] == adds[..i];
      t.Add(adds[i].0, adds[i].1);
      i := i + 1;
    }
    assert adds[..i] == adds;
  }
}
