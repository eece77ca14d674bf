// The iterative segment tree of the practice data structures
// (src/language_practice/some_ds.hpp): `N` elements (a power of two) in
// slots `N..2N-1` of a `2N`-slot array, each slot `p` below `N` holding
// `Op` of its two children `2p` and `2p + 1`.
//
// `Op` and `Identity` are the tree's parameters; the code relies on `Op`
// being associative with `Identity` as its unit, which the model states as
// `Monoid`.

module SegmentTree {
  import opened Common

  /** `op` is associative and `identity` is its unit on both sides. */
  ghost predicate MonoidLaws<T(!new)>(op: (T, T) -> T, identity: T) {
    (forall a, b, c :: op(op(a, b), c) == op(a, op(b, c))) &&
    (forall a :: op(identity, a) == a && op(a, identity) == a)
  }

  /** `MonoidLaws`, kept behind `Sealed`: only the folding lemmas below see the laws. */
  ghost predicate Monoid<T(!new)>(op: (T, T) -> T, identity: T) {
    forall k {:trigger Sealed(identity, k)} :: Sealed(identity, k) ==> MonoidLaws(op, identity)
  }

  /** Closes `Monoid` over the plain laws. */
  lemma SealMonoid<T(!new)>(op: (T, T) -> T, identity: T)
    requires MonoidLaws(op, identity)
    ensures Monoid(op, identity)
  {
    forall k | Sealed(identity, k)
      ensures MonoidLaws(op, identity)
    {
    }
  }

  /** `identity` combined with itself is `identity`: a tree of `Identity` slots is consistent. */
  lemma UnitFixed<T(!new)>(op: (T, T) -> T, identity: T)
    requires Monoid(op, identity)
    ensures op(identity, identity) == identity
  {
    assert Sealed(identity, 0);
  }

  /** A slice of a slice is a slice. */
  lemma SliceOfSlice<T>(s: seq<T>, a: nat, b: nat, c: nat, d: nat)
    requires a <= b <= |s| && c <= d <= b - a
    ensures s[a..b][c..d] == s[a + c..a + d]
  {
    forall i | 0 <= i < d - c
      ensures s[a..b][c..d][i] == s[a + c..a + d][i]
    {
      assert s[a..b][c..d][i] == s[a..b][c + i];
    }
  }

  /** The query's start: both results are `identity`, which wraps the total without changing it. */
  lemma QueryStart<T(!new)>(op: (T, T) -> T, identity: T, x: T)
    requires Monoid(op, identity)
    ensures op(op(identity, x), identity) == x
  {
    assert Sealed(identity, 0);
  }

  /** One instance of associativity. */
  lemma Assoc<T(!new)>(op: (T, T) -> T, identity: T, a: T, b: T, c: T)
    requires Monoid(op, identity)
    ensures op(op(a, b), c) == op(a, op(b, c))
  {
    assert Sealed(identity, 0);
  }

  /** What `query` has folded so far: the left result, the run of slots `lo..hi` still to visit, the right result. */
  ghost function Total<T>(op: (T, T) -> T, identity: T, t: seq<T>, lo: nat, hi: int, resLeft: T, resRight: T): T
    requires lo <= hi + 1 <= |t|
  {
    op(op(resLeft, Fold(op, identity, t[lo..hi + 1])), resRight)
  }

  /** Taking the first slot of the run into the left result keeps the query's total. */
  lemma PeelLeft<T(!new)>(op: (T, T) -> T, identity: T, t: seq<T>, lo: nat, hi: nat, resLeft: T, resRight: T)
    requires Monoid(op, identity) && lo <= hi < |t|
    ensures Total(op, identity, t, lo + 1, hi, op(resLeft, t[lo]), resRight) == Total(op, identity, t, lo, hi, resLeft, resRight)
  {
    FoldConcat(op, identity, [t[lo]], t[lo + 1..hi + 1]);
    FoldOne(op, identity, t[lo]);
    assert [t[lo]] + t[lo + 1..hi + 1] == t[lo..hi + 1];
    Assoc(op, identity, resLeft, t[lo], Fold(op, identity, t[lo + 1..hi + 1]));
  }

  /** Taking the last slot of the run into the right result keeps the query's total. */
  lemma PeelRight<T(!new)>(op: (T, T) -> T, identity: T, t: seq<T>, lo: nat, hi: nat, resLeft: T, resRight: T)
    requires Monoid(op, identity) && lo <= hi < |t|
    ensures Total(op, identity, t, lo, hi - 1, resLeft, op(t[hi], resRight)) == Total(op, identity, t, lo, hi, resLeft, resRight)
  {
    assert t[lo..hi + 1][..hi - lo] == t[lo..hi];
    Assoc(op, identity, resLeft, Fold(op, identity, t[lo..hi]), t[hi]);
    Assoc(op, identity, op(resLeft, Fold(op, identity, t[lo..hi])), t[hi], resRight);
  }

  /** `query` going up a level: an even-aligned run folds to the same total as the run of its parents. */
  lemma ClimbLevel<T(!new)>(op: (T, T) -> T, identity: T, t: seq<T>, n: nat, lo: nat, hi: nat, resLeft: T, resRight: T)
    requires Monoid(op, identity) && |t| == 2 * n && ParentsHold(op, t, 1, n - 1)
    requires lo % 2 == 0 && hi % 2 == 1 && 1 <= lo <= hi + 1 <= 2 * n
    ensures 1 <= lo / 2 <= hi / 2 + 1 <= 2 * n
    ensures Total(op, identity, t, lo / 2, hi / 2, resLeft, resRight) == Total(op, identity, t, lo, hi, resLeft, resRight)
  {
    assert ParentsHold(op, t, lo / 2, hi / 2);
    FoldPairs(op, identity, t, lo, hi);
  }

  /**
   * One pass of `query`'s loop keeps the total: an odd left end goes into
   * the left result, an even right end into the right result, and the
   * remaining run, now even-aligned, folds like the run of its parents.
   */
  lemma Pass<T(!new)>(op: (T, T) -> T, identity: T, t: seq<T>, n: nat, lo: nat, hi: nat, resLeft: T, resRight: T,
                      lo': nat, hi': nat, resLeft': T, resRight': T)
    requires Monoid(op, identity) && |t| == 2 * n && ParentsHold(op, t, 1, n - 1)
    requires 1 <= lo <= hi < 2 * n
    requires lo' == (if lo % 2 == 1 then lo + 1 else lo) && resLeft' == (if lo % 2 == 1 then op(resLeft, t[lo]) else resLeft)
    requires hi' == (if hi % 2 == 0 then hi - 1 else hi) && resRight' == (if hi % 2 == 0 then op(t[hi], resRight) else resRight)
    ensures 1 <= lo' / 2 <= hi' / 2 + 1 <= 2 * n && hi' / 2 + 1 - lo' / 2 < hi + 1 - lo
    ensures Total(op, identity, t, lo' / 2, hi' / 2, resLeft', resRight') == Total(op, identity, t, lo, hi, resLeft, resRight)
  {
    Parity(lo, hi);
    if lo % 2 == 1 {
      PeelLeft(op, identity, t, lo, hi, resLeft, resRight);
    }
    if hi % 2 == 0 {
      PeelRight(op, identity, t, lo', hi, resLeft', resRight);
    }
    ClimbLevel(op, identity, t, n, lo', hi', resLeft', resRight');
  }

  /** The parities `query`'s pass relies on: an odd left end moves to an even slot, an even right end to an odd one. */
  lemma Parity(lo: int, hi: int)
    ensures lo % 2 == 1 ==> (lo + 1) % 2 == 0
    ensures lo % 2 != 1 ==> lo % 2 == 0
    ensures hi % 2 == 0 ==> (hi - 1) % 2 == 1
    ensures hi % 2 != 0 ==> hi % 2 == 1
    ensures lo % 2 == 1 && lo == hi ==> hi % 2 == 1
  {
  }

  /** At the loop's exit the run is empty, and the two results make the total. */
  lemma QueryDone<T(!new)>(op: (T, T) -> T, identity: T, t: seq<T>, lo: nat, resLeft: T, resRight: T)
    requires Monoid(op, identity) && lo <= |t|
    ensures Total(op, identity, t, lo, lo - 1, resLeft, resRight) == op(resLeft, resRight)
  {
    assert Sealed(identity, 0);
    assert t[lo..lo] == [];
  }

  /** `op` folded over `s` from the left, starting from `identity`. */
  function Fold<T>(op: (T, T) -> T, identity: T, s: seq<T>): T
    decreases |s|
  {
    if s == [] then identity else op(Fold(op, identity, s[..|s| - 1]), s[|s| - 1])
  }

  /** Folding a concatenation is `op` of the two folds. */
  lemma {:induction false} FoldConcat<T(!new)>(op: (T, T) -> T, identity: T, s: seq<T>, t: seq<T>)
    requires Monoid(op, identity)
    ensures Fold(op, identity, s + t) == op(Fold(op, identity, s), Fold(op, identity, t))
    decreases |t|
  {
    assert Sealed(identity, 0);
    if t == [] {
      assert s + t == s;
    } else {
      FoldConcat(op, identity, s, t[..|t| - 1]);
      assert (s + t)[..|s + t| - 1] == s + t[..|t| - 1];
    }
  }

  /** Slot `p` of `t` holds `op` of its two children. */
  ghost predicate Parent<T>(op: (T, T) -> T, t: seq<T>, p: nat) {
    2 * p + 1 < |t| && t[p] == op(t[2 * p], t[2 * p + 1])
  }

  /** Slots `a..b` of `t` each hold `op` of their two children. */
  ghost predicate ParentsHold<T>(op: (T, T) -> T, t: seq<T>, a: int, b: int) {
    forall p: nat {:trigger Parent(op, t, p)} :: a <= p <= b ==> Parent(op, t, p)
  }

  /**
   * An even-aligned run of slots folds to the same value as the run of
   * their parents: `query`'s step up one level.
   */
  lemma {:induction false} FoldPairs<T(!new)>(op: (T, T) -> T, identity: T, t: seq<T>, lo: nat, hi: nat)
    requires Monoid(op, identity)
    requires lo % 2 == 0 && hi % 2 == 1 && 2 <= lo <= hi + 1 < |t| + 1
    requires ParentsHold(op, t, lo / 2, hi / 2)
    ensures Fold(op, identity, t[lo..hi + 1]) == Fold(op, identity, t[lo / 2..hi / 2 + 1])
    decreases hi
  {
    if lo == hi + 1 {
      assert t[lo..hi + 1] == [] && t[lo / 2..hi / 2 + 1] == [];
    } else {
      var p := hi / 2;
      FoldPairs(op, identity, t, lo, hi - 2);
      assert t[lo..hi + 1] == t[lo..hi - 1] + [t[hi - 1], t[hi]];
      FoldLastTwo(op, identity, t[lo..hi + 1], t[lo..hi - 1], t[hi - 1], t[hi]);
      assert t[lo / 2..p + 1] == t[lo / 2..p] + [t[p]];
      FoldSnoc(op, identity, t[lo / 2..p + 1], t[lo / 2..p], t[p]);
      assert 2 * p == hi - 1 && Parent(op, t, p);
    }
  }

  /** Folding one more element is `op` of the fold so far and the element. */
  lemma FoldSnoc<T>(op: (T, T) -> T, identity: T, s: seq<T>, front: seq<T>, x: T)
    requires s == front + [x]
    ensures Fold(op, identity, s) == op(Fold(op, identity, front), x)
  {
    assert s[..|s| - 1] == front;
  }

  /** Folding two more elements is `op` of the fold so far and their pair. */
  lemma FoldLastTwo<T(!new)>(op: (T, T) -> T, identity: T, s: seq<T>, front: seq<T>, x: T, y: T)
    requires Monoid(op, identity)
    requires s == front + [x, y]
    ensures Fold(op, identity, s) == op(Fold(op, identity, front), op(x, y))
  {
    FoldSnoc(op, identity, s, front + [x], y);
    FoldSnoc(op, identity, front + [x], front, x);
    Assoc(op, identity, Fold(op, identity, front), x, y);
  }

  /** Folding one element gives the element. */
  lemma FoldOne<T(!new)>(op: (T, T) -> T, identity: T, x: T)
    requires Monoid(op, identity)
    ensures Fold(op, identity, [x]) == x
  {
    assert Sealed(identity, 0);
    assert [x][..0] == [];
  }

  /** `FixedSegmentTree<T, N, Op, Identity>`. */
  class FixedSegmentTree<T(0,!new)> {
    /** `N`. */
    const n: nat
    const op: (T, T) -> T
    const identity: T
    /** `tree_`: slot 1 is the root, slots `N..2N-1` the elements; slot 0 is unused. */
    const tree: array<T>

    /** Every inner slot holds `op` of its two children. */
    ghost predicate Valid()
      reads this, tree
    {
      n > 0 && IsPowerOfTwo(n) && Monoid(op, identity) && tree.Length == 2 * n &&
      ParentsHold(op, tree[..], 1, n - 1)
    }

    /** The elements: the leaf slots, in order. */
    ghost function Elements(): (s: seq<T>)
      reads this, tree
      requires tree.Length == 2 * n
      ensures |s| == n
    {
      tree[n..2 * n]
    }

    /** The constructor: every slot `Identity`. */
    constructor (n: nat, op: (T, T) -> T, identity: T)
      requires n > 0 && IsPowerOfTwo(n) && Monoid(op, identity)
      ensures Valid() && this.n == n && this.op == op && this.identity == identity
      ensures Elements() == seq(n, _ => identity)
      ensures fresh(tree)
    {
      this.n := n;
      this.op := op;
      this.identity := identity;
      tree := new T[2 * n];
      new;
      for i := 0 to 2 * n
        invariant forall j :: 0 <= j < i ==> tree[j] == identity
      {
        tree[i] := identity;
      }
      UnitFixed(op, identity);
    }

    /**
     * `set(idx, v)`: the element at `idx` becomes `v`, and the slots on its
     * path to the root are recomputed bottom-up.
     */
    method Set(idx: nat, v: T)
      requires Valid() && idx < n
      modifies tree
      ensures Valid()
      ensures Elements() == old(Elements())[idx := v]
    {
      var p: nat := idx + n;
      SetStart(op, tree[..], n, idx, v);
      tree[p] := v;
      p := p / 2;
      while p > 0
        invariant p < n
        invariant tree[n..2 * n] == old(Elements())[idx := v]
        invariant ParentsOffPath(op, tree[..], n, p)
        decreases p
      {
        SetStep(op, tree[..], n, p);
        tree[p] := op(tree[2 * p], tree[2 * p + 1]);
        p := p / 2;
      }
      SetDone(op, tree[..], n);
    }

    /**
     * `query(l, r)`: `Op` folded over the elements `l..r`, in order. The
     * loop climbs from both ends, folding the boundary slots that do not
     * pair up into `resLeft` and `resRight`.
     */
    method Query(l: nat, r: nat) returns (res: T)
      requires Valid() && l <= r < n
      ensures res == Fold(op, identity, Elements()[l..r + 1])
    {
      ghost var t := tree[..];
      ghost var goal := Fold(op, identity, Elements()[l..r + 1]);
      SliceOfSlice(t, n, 2 * n, l, r + 1);
      var lo := l + n;
      var hi := r + n;
      var resLeft := identity;
      var resRight := identity;
      QueryStart(op, identity, goal);
      while lo <= hi
        invariant 1 <= lo <= hi + 1 <= 2 * n
        invariant Total(op, identity, t, lo, hi, resLeft, resRight) == goal
        decreases hi + 1 - lo
      {
        ghost var (lo0, hi0, resLeft0, resRight0) := (lo, hi, resLeft, resRight);
        if lo % 2 == 1 {
          resLeft := op(resLeft, tree[lo]);
          lo := lo + 1;
        }
        if hi % 2 == 0 {
          resRight := op(tree[hi], resRight);
          hi := hi - 1;
        }
        Pass(op, identity, t, n, lo0, hi0, resLeft0, resRight0, lo, hi, resLeft, resRight);
        lo := lo / 2;
        hi := hi / 2;
      }
      QueryDone(op, identity, t, lo, resLeft, resRight);
      res := op(resLeft, resRight);
    }
  }

  /** Every inner slot off the path from `p` to the root holds `op` of its children. */
  ghost predicate ParentsOffPath<T>(op: (T, T) -> T, t: seq<T>, n: nat, p: nat) {
    forall q {:trigger Parent(op, t, q)} :: 1 <= q < n && !OnPath(q, p) ==> Parent(op, t, q)
  }

  /** Writing leaf `idx + n` breaks at most the slots on its parent's path. */
  lemma SetStart<T>(op: (T, T) -> T, t: seq<T>, n: nat, idx: nat, v: T)
    requires |t| == 2 * n && idx < n && ParentsHold(op, t, 1, n - 1)
    ensures ParentsOffPath(op, t[idx + n := v], n, (idx + n) / 2)
  {
    var t' := t[idx + n := v];
    forall q | 1 <= q < n && !OnPath(q, (idx + n) / 2)
      ensures Parent(op, t', q)
    {
      assert Parent(op, t, q);
    }
  }

  /** Recomputing slot `p` mends it; what stays broken is its parent's path. */
  lemma SetStep<T>(op: (T, T) -> T, t: seq<T>, n: nat, p: nat)
    requires |t| == 2 * n && 1 <= p < n && ParentsOffPath(op, t, n, p)
    ensures ParentsOffPath(op, t[p := op(t[2 * p], t[2 * p + 1])], n, p / 2)
  {
    var t' := t[p := op(t[2 * p], t[2 * p + 1])];
    forall q | 1 <= q < n && !OnPath(q, p / 2)
      ensures Parent(op, t', q)
    {
      if q != p {
        assert Parent(op, t, q);
      }
    }
  }

  /** Past the root nothing is broken. */
  lemma SetDone<T>(op: (T, T) -> T, t: seq<T>, n: nat)
    requires ParentsOffPath(op, t, n, 0)
    ensures ParentsHold(op, t, 1, n - 1)
  {
    forall q | 1 <= q <= n - 1
      ensures Parent(op, t, q)
    {
      assert !OnPath(q, 0);
    }
  }

  /** `q` is `p` or one of its ancestors (slot 1 is the root). */
  predicate OnPath(q: nat, p: nat)
    decreases p
  {
    p >= 1 && (q == p || OnPath(q, p / 2))
  }
}
