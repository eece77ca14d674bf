// The lazy-propagation segment tree of the practice data structures
// (src/language_practice/some_ds.hpp): range add and range sum over `N`
// integers, `N` a power of two. Node 1 covers `[0, N - 1]`, node `n`
// covering `[l, r]` has children `2n` over `[l, mid]` and `2n + 1` over
// `[mid + 1, r]`; `seg[n]` is the sum of its range and `lazy[n]` an add
// still owed to its children.
//
// The element values are not stored anywhere: `Eval` reads them off the
// two arrays, adding each node's pending `lazy` on the way down, and the
// tree's operations are specified by what they do to `Eval`.

module LazySegmentTree {
  import opened Common

  // ---------------------------------------------------------------------
  // Shape of the tree

  /** Node `n` covers `[l, r]` in a tree over `N` leaves: a power-of-two width, and `n * width == N + l`. */
  ghost predicate ShapeLaws(N: nat, n: nat, l: nat, r: nat) {
    l <= r && IsPowerOfTwo(r - l + 1) && n * (r - l + 1) == N + l
  }

  /** `ShapeLaws`, its arithmetic kept behind `Sealed` for the lemmas below. */
  ghost predicate Shape(N: nat, n: nat, l: nat, r: nat) {
    1 <= n < 2 * N && l <= r < N &&
    forall k {:trigger Sealed(n, k)} :: Sealed(n, k) ==> ShapeLaws(N, n, l, r)
  }

  lemma SealShape(N: nat, n: nat, l: nat, r: nat)
    requires 1 <= n && r < N && ShapeLaws(N, n, l, r)
    ensures Shape(N, n, l, r)
  {
    MultipleGap(n, r - l + 1);
    forall k | Sealed(n, k)
      ensures ShapeLaws(N, n, l, r)
    {
    }
  }

  /** The root covers every element. */
  lemma ShapeRoot(N: nat)
    requires N > 0 && IsPowerOfTwo(N)
    ensures Shape(N, 1, 0, N - 1)
  {
    SealShape(N, 1, 0, N - 1);
  }

  /** An inner node's children split its range at `mid = (l + r) / 2`, and both are inside the arrays. */
  lemma ShapeChildren(N: nat, n: nat, l: nat, r: nat)
    requires Shape(N, n, l, r) && l < r
    ensures 2 * n + 1 < 2 * N && r - l + 1 == 2 * ((l + r) / 2 - l + 1)
    ensures Shape(N, 2 * n, l, (l + r) / 2) && Shape(N, 2 * n + 1, (l + r) / 2 + 1, r)
  {
    assert Sealed(n, 0);
    var len := r - l + 1;
    var h := len / 2;
    assert len % 2 == 0 && IsPowerOfTwo(h);
    assert len == 2 * h && (l + r) / 2 == l + h - 1;
    assert n * len == (2 * n) * h;
    assert (2 * n + 1) * h == (2 * n) * h + h;
    assert (2 * n) * h >= 2 * n by {
      MultipleGap(2 * n, h);
    }
    SealShape(N, 2 * n, l, (l + r) / 2);
    SealShape(N, 2 * n + 1, (l + r) / 2 + 1, r);
  }

  /** A leaf is slot `N + l`. */
  lemma ShapeLeaf(N: nat, n: nat, l: nat)
    requires Shape(N, n, l, l)
    ensures n == N + l < 2 * N
  {
    assert Sealed(n, 0);
  }

  /** Slot `k` is in the subtree of node `m`: `m` is `k` or one of its ancestors. */
  ghost predicate InSub(k: nat, m: nat)
    decreases k
  {
    1 <= m <= k && (k == m || InSub(k / 2, m))
  }

  /** The subtrees of a node's children lie in the node's subtree. */
  lemma {:induction false} ChildSub(k: nat, m: nat)
    requires 1 <= m && (InSub(k, 2 * m) || InSub(k, 2 * m + 1))
    ensures InSub(k, m)
    decreases k
  {
    if k != 2 * m && k != 2 * m + 1 {
      ChildSub(k / 2, m);
    }
  }

  /** The subtrees of two siblings are disjoint. */
  lemma {:induction false} SiblingsApart(k: nat, m: nat)
    requires 1 <= m
    ensures !(InSub(k, 2 * m) && InSub(k, 2 * m + 1))
    decreases k
  {
    if k > 2 * m + 1 {
      SiblingsApart(k / 2, m);
    }
  }

  // ---------------------------------------------------------------------
  // The element values and the sum invariant

  /**
   * The values of the elements under node `n`, given the adds `p` its
   * ancestors still owe it: a leaf's own sum plus `p`; an inner node's
   * children, each owed `p` plus the node's `lazy`.
   */
  ghost function Eval(s: seq<int>, z: seq<int>, N: nat, n: nat, l: nat, r: nat, p: int): (v: seq<int>)
    requires |s| == 2 * N && |z| == 2 * N && Shape(N, n, l, r)
    decreases r - l
  {
    if l == r then
      ShapeLeaf(N, n, l);
      [s[n] + p]
    else
      ShapeChildren(N, n, l, r);
      var mid := (l + r) / 2;
      Eval(s, z, N, 2 * n, l, mid, p + z[n]) + Eval(s, z, N, 2 * n + 1, mid + 1, r, p + z[n])
  }

  /** Every inner node's sum is its children's sums plus its pending add over its whole width. */
  ghost predicate Ok(s: seq<int>, z: seq<int>, N: nat, n: nat, l: nat, r: nat)
    requires |s| == 2 * N && |z| == 2 * N && Shape(N, n, l, r)
    decreases r - l
  {
    l == r ||
    (ShapeChildren(N, n, l, r);
     var mid := (l + r) / 2;
     Ok(s, z, N, 2 * n, l, mid) && Ok(s, z, N, 2 * n + 1, mid + 1, r) &&
     s[n] == s[2 * n] + s[2 * n + 1] + z[n] * (r - l + 1))
  }

  /** `s` with `d` added to every element. */
  function AddAll(s: seq<int>, d: int): seq<int> {
    seq(|s|, i requires 0 <= i < |s| => s[i] + d)
  }

  /** `s`, whose first element is position `lo`, with `v` added at the positions in `[a, b]`. */
  function AddOn(s: seq<int>, lo: int, a: int, b: int, v: int): seq<int> {
    seq(|s|, i requires 0 <= i < |s| => if a <= lo + i <= b then s[i] + v else s[i])
  }

  /** `s`, whose first element is position `lo`, with the positions outside `[a, b]` zeroed. */
  function Mask(s: seq<int>, lo: int, a: int, b: int): seq<int> {
    seq(|s|, i requires 0 <= i < |s| => if a <= lo + i <= b then s[i] else 0)
  }

  /** Adding to every element of a concatenation adds to every element of both parts. */
  lemma AddAllConcat(x: seq<int>, y: seq<int>, x': seq<int>, y': seq<int>, d: int)
    requires x' == AddAll(x, d) && y' == AddAll(y, d)
    ensures x' + y' == AddAll(x + y, d)
  {
  }

  /** A leaf's one element is its own sum plus what is owed to it. */
  lemma LeafEval(s: seq<int>, z: seq<int>, N: nat, n: nat, l: nat, p: int)
    requires |s| == 2 * N && |z| == 2 * N && Shape(N, n, l, l)
    ensures n < 2 * N && Eval(s, z, N, n, l, l, p) == [s[n] + p]
  {
    ShapeLeaf(N, n, l);
  }

  /** An add owed from above shifts every element by that add. */
  lemma {:induction false} EvalShift(s: seq<int>, z: seq<int>, N: nat, n: nat, l: nat, r: nat, p: int, d: int)
    requires |s| == 2 * N && |z| == 2 * N && Shape(N, n, l, r)
    ensures Eval(s, z, N, n, l, r, p + d) == AddAll(Eval(s, z, N, n, l, r, p), d)
    decreases r - l
  {
    if l < r {
      var mid := (l + r) / 2;
      var q := p + z[n];
      ShapeChildren(N, n, l, r);
      EvalShift(s, z, N, 2 * n, l, mid, q, d);
      EvalShift(s, z, N, 2 * n + 1, mid + 1, r, q, d);
      EvalShiftNode(s, z, N, n, l, mid, r, p, q, d);
    } else {
      LeafEval(s, z, N, n, l, p);
      LeafEval(s, z, N, n, l, p + d);
      assert AddAll([s[n] + p], d) == [s[n] + p + d];
    }
  }

  /** The inner-node step of `EvalShift`: both halves shift, so their concatenation does. */
  lemma EvalShiftNode(s: seq<int>, z: seq<int>, N: nat, n: nat, l: nat, mid: nat, r: nat, p: int, q: int, d: int)
    requires |s| == 2 * N && |z| == 2 * N && Shape(N, n, l, r) && l < r && mid == (l + r) / 2 && q == p + z[n]
    requires 2 * n + 1 < 2 * N && Shape(N, 2 * n, l, mid) && Shape(N, 2 * n + 1, mid + 1, r)
    requires Eval(s, z, N, 2 * n, l, mid, q + d) == AddAll(Eval(s, z, N, 2 * n, l, mid, q), d)
    requires Eval(s, z, N, 2 * n + 1, mid + 1, r, q + d) == AddAll(Eval(s, z, N, 2 * n + 1, mid + 1, r, q), d)
    ensures Eval(s, z, N, n, l, r, p + d) == AddAll(Eval(s, z, N, n, l, r, p), d)
  {
    NodeUnfold(s, z, N, n, l, mid, r, p, q);
    NodeUnfold(s, z, N, n, l, mid, r, p + d, q + d);
    AddAllConcat(Eval(s, z, N, 2 * n, l, mid, q), Eval(s, z, N, 2 * n + 1, mid + 1, r, q),
                 Eval(s, z, N, 2 * n, l, mid, q + d), Eval(s, z, N, 2 * n + 1, mid + 1, r, q + d), d);
  }

  /** A node over `[l, r]` stands for `r - l + 1` elements. */
  lemma {:induction false} EvalLen(s: seq<int>, z: seq<int>, N: nat, n: nat, l: nat, r: nat, p: int)
    requires |s| == 2 * N && |z| == 2 * N && Shape(N, n, l, r)
    ensures |Eval(s, z, N, n, l, r, p)| == r - l + 1
    decreases r - l
  {
    if l == r {
      LeafEval(s, z, N, n, l, p);
    } else {
      var mid := (l + r) / 2;
      NodeUnfold(s, z, N, n, l, mid, r, p, p + z[n]);
      EvalLen(s, z, N, 2 * n, l, mid, p + z[n]);
      EvalLen(s, z, N, 2 * n + 1, mid + 1, r, p + z[n]);
    }
  }

  /** An inner node's elements are its children's, each owed the node's `lazy` on top. */
  lemma NodeUnfold(s: seq<int>, z: seq<int>, N: nat, n: nat, l: nat, mid: nat, r: nat, p: int, q: int)
    requires |s| == 2 * N && |z| == 2 * N && Shape(N, n, l, r) && l < r && mid == (l + r) / 2 && q == p + z[n]
    ensures Shape(N, 2 * n, l, mid) && Shape(N, 2 * n + 1, mid + 1, r) && 2 * n + 1 < 2 * N
    ensures r - l + 1 == 2 * (mid - l + 1)
    ensures Eval(s, z, N, n, l, r, p) == Eval(s, z, N, 2 * n, l, mid, q) + Eval(s, z, N, 2 * n + 1, mid + 1, r, q)
  {
    ShapeChildren(N, n, l, r);
  }

  /** An inner node keeps the invariant when both children do and its sum is theirs plus its pending add. */
  lemma OkUnfold(s: seq<int>, z: seq<int>, N: nat, n: nat, l: nat, mid: nat, r: nat)
    requires |s| == 2 * N && |z| == 2 * N && Shape(N, n, l, r) && l < r && mid == (l + r) / 2
    ensures Shape(N, 2 * n, l, mid) && Shape(N, 2 * n + 1, mid + 1, r) && 2 * n + 1 < 2 * N
    ensures r - l + 1 == 2 * (mid - l + 1)
    ensures Ok(s, z, N, n, l, r) <==>
      Ok(s, z, N, 2 * n, l, mid) && Ok(s, z, N, 2 * n + 1, mid + 1, r) && s[n] == s[2 * n] + s[2 * n + 1] + z[n] * (r - l + 1)
  {
    ShapeChildren(N, n, l, r);
  }

  /** The sum of a node's elements, added up along the tree. */
  ghost function TreeSum(s: seq<int>, z: seq<int>, N: nat, n: nat, l: nat, r: nat, p: int): int
    requires |s| == 2 * N && |z| == 2 * N && Shape(N, n, l, r)
    decreases r - l
  {
    if l == r then
      ShapeLeaf(N, n, l);
      s[n] + p
    else
      ShapeChildren(N, n, l, r);
      var mid := (l + r) / 2;
      TreeSum(s, z, N, 2 * n, l, mid, p + z[n]) + TreeSum(s, z, N, 2 * n + 1, mid + 1, r, p + z[n])
  }

  lemma TreeSumUnfold(s: seq<int>, z: seq<int>, N: nat, n: nat, l: nat, mid: nat, r: nat, p: int, q: int)
    requires |s| == 2 * N && |z| == 2 * N && Shape(N, n, l, r) && l < r && mid == (l + r) / 2 && q == p + z[n]
    ensures Shape(N, 2 * n, l, mid) && Shape(N, 2 * n + 1, mid + 1, r) && 2 * n + 1 < 2 * N
    ensures TreeSum(s, z, N, n, l, r, p) == TreeSum(s, z, N, 2 * n, l, mid, q) + TreeSum(s, z, N, 2 * n + 1, mid + 1, r, q)
  {
    ShapeChildren(N, n, l, r);
  }

  /** `TreeSum` is the sum of the elements. */
  lemma {:induction false} SumIsTreeSum(s: seq<int>, z: seq<int>, N: nat, n: nat, l: nat, r: nat, p: int)
    requires |s| == 2 * N && |z| == 2 * N && Shape(N, n, l, r)
    ensures Sum(Eval(s, z, N, n, l, r, p)) == TreeSum(s, z, N, n, l, r, p)
    decreases r - l
  {
    if l == r {
      ShapeLeaf(N, n, l);
      var v := Eval(s, z, N, n, l, r, p);
      assert v == [s[n] + p] && v[..0] == [];
    } else {
      var mid := (l + r) / 2;
      var q := p + z[n];
      NodeUnfold(s, z, N, n, l, mid, r, p, q);
      SumIsTreeSum(s, z, N, 2 * n, l, mid, q);
      SumIsTreeSum(s, z, N, 2 * n + 1, mid + 1, r, q);
      SumConcat(Eval(s, z, N, 2 * n, l, mid, q), Eval(s, z, N, 2 * n + 1, mid + 1, r, q));
    }
  }

  /** The arithmetic of `TreeSumOk`: two halves owed `p + lz` each make the node's sum owed `p`. */
  lemma NodeSumArith(total: int, sx: int, sy: int, sn: int, a: int, b: int, lz: int, p: int, q: int, h: int, w: int)
    requires total == sx + sy && q == p + lz && sx == a + q * h && sy == b + q * h
    requires sn == a + b + lz * w && w == 2 * h
    ensures total == sn + p * w
  {
    assert q * h == p * h + lz * h;
  }

  /** Under the invariant, `TreeSum` is the node's stored sum plus what is owed to each element. */
  lemma {:induction false} TreeSumOk(s: seq<int>, z: seq<int>, N: nat, n: nat, l: nat, r: nat, p: int)
    requires Inv(s, z, N, n, l, r)
    ensures TreeSum(s, z, N, n, l, r, p) == s[n] + p * (r - l + 1)
    decreases r - l
  {
    if l < r {
      var mid := (l + r) / 2;
      var q := p + z[n];
      InvChildren(s, z, N, n, l, mid, r);
      TreeSumOk(s, z, N, 2 * n, l, mid, q);
      TreeSumOk(s, z, N, 2 * n + 1, mid + 1, r, q);
      TreeSumOkStep(s, z, N, n, l, mid, r, p, q);
    }
  }

  /** Under the invariant, both children of an inner node keep it. */
  lemma InvChildren(s: seq<int>, z: seq<int>, N: nat, n: nat, l: nat, mid: nat, r: nat)
    requires Inv(s, z, N, n, l, r) && l < r && mid == (l + r) / 2
    ensures 2 * n + 1 < 2 * N && Inv(s, z, N, 2 * n, l, mid) && Inv(s, z, N, 2 * n + 1, mid + 1, r)
  {
    InvOpen(s, z, N, n, l, r);
    OkUnfold(s, z, N, n, l, mid, r);
    SealInv(s, z, N, 2 * n, l, mid);
    SealInv(s, z, N, 2 * n + 1, mid + 1, r);
  }

  /** The inner-node step of `TreeSumOk`, given both children's. */
  lemma TreeSumOkStep(s: seq<int>, z: seq<int>, N: nat, n: nat, l: nat, mid: nat, r: nat, p: int, q: int)
    requires Inv(s, z, N, n, l, r) && l < r && mid == (l + r) / 2 && q == p + z[n]
    requires Shape(N, 2 * n, l, mid) && Shape(N, 2 * n + 1, mid + 1, r) && 2 * n + 1 < 2 * N
    requires TreeSum(s, z, N, 2 * n, l, mid, q) == s[2 * n] + q * (mid - l + 1)
    requires TreeSum(s, z, N, 2 * n + 1, mid + 1, r, q) == s[2 * n + 1] + q * (r - (mid + 1) + 1)
    ensures TreeSum(s, z, N, n, l, r, p) == s[n] + p * (r - l + 1)
  {
    InvOpen(s, z, N, n, l, r);
    OkUnfold(s, z, N, n, l, mid, r);
    TreeSumUnfold(s, z, N, n, l, mid, r, p, q);
    assert r - (mid + 1) + 1 == mid - l + 1;
    NodeSumArith(TreeSum(s, z, N, n, l, r, p), TreeSum(s, z, N, 2 * n, l, mid, q), TreeSum(s, z, N, 2 * n + 1, mid + 1, r, q),
                 s[n], s[2 * n], s[2 * n + 1], z[n], p, q, mid - l + 1, r - l + 1);
  }

  /** Under the invariant, a node's sum is the sum of its elements (plus what is owed to each from above). */
  lemma EvalSum(s: seq<int>, z: seq<int>, N: nat, n: nat, l: nat, r: nat, p: int)
    requires |s| == 2 * N && |z| == 2 * N && Shape(N, n, l, r) && Ok(s, z, N, n, l, r)
    ensures Sum(Eval(s, z, N, n, l, r, p)) == s[n] + p * (r - l + 1)
  {
    SumIsTreeSum(s, z, N, n, l, r, p);
    SealInv(s, z, N, n, l, r);
    TreeSumOk(s, z, N, n, l, r, p);
  }

  // ---------------------------------------------------------------------
  // Frames

  /** `s'`, `z'` agree with `s`, `z` on the subtree of `n`. */
  ghost predicate SameInside(s: seq<int>, z: seq<int>, s': seq<int>, z': seq<int>, n: nat) {
    |s'| == |s| && |z'| == |z| &&
    forall k :: 0 <= k < |s| && k < |z| && InSub(k, n) ==> s'[k] == s[k] && z'[k] == z[k]
  }

  /** `s'`, `z'` agree with `s`, `z` outside the subtree of `n`. */
  ghost predicate SameOutside(s: seq<int>, z: seq<int>, s': seq<int>, z': seq<int>, n: nat) {
    |s'| == |s| && |z'| == |z| &&
    forall k :: 0 <= k < |s| && k < |z| && !InSub(k, n) ==> s'[k] == s[k] && z'[k] == z[k]
  }

  /** Agreement on a node's subtree is agreement on its slot and on both children's subtrees. */
  lemma InsideChildren(s: seq<int>, z: seq<int>, s': seq<int>, z': seq<int>, n: nat)
    requires 1 <= n < |s| && n < |z| && SameInside(s, z, s', z', n)
    ensures s'[n] == s[n] && z'[n] == z[n]
    ensures SameInside(s, z, s', z', 2 * n) && SameInside(s, z, s', z', 2 * n + 1)
  {
    assert InSub(n, n);
    forall k | 0 <= k < |s| && k < |z| && (InSub(k, 2 * n) || InSub(k, 2 * n + 1))
      ensures s'[k] == s[k] && z'[k] == z[k]
    {
      ChildSub(k, n);
    }
  }

  /** A node's elements depend only on its subtree. */
  lemma {:induction false} EvalFrame(s: seq<int>, z: seq<int>, s': seq<int>, z': seq<int>, N: nat, n: nat, l: nat, r: nat, p: int)
    requires |s| == 2 * N && |z| == 2 * N && Shape(N, n, l, r) && SameInside(s, z, s', z', n)
    ensures Eval(s', z', N, n, l, r, p) == Eval(s, z, N, n, l, r, p)
    decreases r - l
  {
    InsideChildren(s, z, s', z', n);
    if l < r {
      var mid := (l + r) / 2;
      var q := p + z[n];
      NodeUnfold(s, z, N, n, l, mid, r, p, q);
      NodeUnfold(s', z', N, n, l, mid, r, p, q);
      EvalFrame(s, z, s', z', N, 2 * n, l, mid, q);
      EvalFrame(s, z, s', z', N, 2 * n + 1, mid + 1, r, q);
    } else {
      LeafEval(s, z, N, n, l, p);
      LeafEval(s', z', N, n, l, p);
    }
  }

  /** A node's invariant depends only on its subtree. */
  lemma {:induction false} OkFrame(s: seq<int>, z: seq<int>, s': seq<int>, z': seq<int>, N: nat, n: nat, l: nat, r: nat)
    requires |s| == 2 * N && |z| == 2 * N && Shape(N, n, l, r) && SameInside(s, z, s', z', n)
    ensures Ok(s', z', N, n, l, r) == Ok(s, z, N, n, l, r)
    decreases r - l
  {
    InsideChildren(s, z, s', z', n);
    if l < r {
      var mid := (l + r) / 2;
      OkUnfold(s, z, N, n, l, mid, r);
      OkUnfold(s', z', N, n, l, mid, r);
      OkFrame(s, z, s', z', N, 2 * n, l, mid);
      OkFrame(s, z, s', z', N, 2 * n + 1, mid + 1, r);
      InsideChildren(s, z, s', z', 2 * n);
      InsideChildren(s, z, s', z', 2 * n + 1);
    }
  }

  /** A change inside one child's subtree leaves the other child's subtree and the parent's own slot alone. */
  lemma OutsideSibling(s: seq<int>, z: seq<int>, s': seq<int>, z': seq<int>, m: nat, c: nat, o: nat)
    requires 1 <= m && ((c == 2 * m && o == 2 * m + 1) || (c == 2 * m + 1 && o == 2 * m))
    requires SameOutside(s, z, s', z', c) && m < |s| && m < |z|
    ensures SameInside(s, z, s', z', o) && s'[m] == s[m] && z'[m] == z[m]
  {
    forall k | 0 <= k < |s| && k < |z| && InSub(k, o)
      ensures s'[k] == s[k] && z'[k] == z[k]
    {
      SiblingsApart(k, m);
    }
  }

  /** Changes inside the subtree of a child are inside the subtree of its parent. */
  lemma OutsideGrow(s: seq<int>, z: seq<int>, s': seq<int>, z': seq<int>, m: nat, c: nat)
    requires 1 <= m && (c == 2 * m || c == 2 * m + 1) && SameOutside(s, z, s', z', c)
    ensures SameOutside(s, z, s', z', m)
  {
    forall k | 0 <= k < |s| && k < |z| && !InSub(k, m)
      ensures s'[k] == s[k] && z'[k] == z[k]
    {
      if InSub(k, c) {
        ChildSub(k, m);
      }
    }
  }

  /** Agreement outside a subtree is transitive. */
  lemma OutsideTrans(s0: seq<int>, z0: seq<int>, s1: seq<int>, z1: seq<int>, s2: seq<int>, z2: seq<int>, m: nat)
    requires SameOutside(s0, z0, s1, z1, m) && SameOutside(s1, z1, s2, z2, m)
    ensures SameOutside(s0, z0, s2, z2, m)
  {
  }

  /** Changing only slot `k` leaves alone the subtree of any node `c` above or beside it. */
  lemma SlotOutside(s: seq<int>, z: seq<int>, k: nat, v: int, w: int, c: nat)
    requires 1 <= k < |s| && k < |z| && !InSub(k, c)
    ensures SameInside(s, z, s[k := v], z[k := w], c) && SameOutside(s, z, s[k := v], z[k := w], k)
  {
    assert InSub(k, k);
  }

  /** Changing one slot outside node `c`'s subtree keeps `c`'s elements and invariant. */
  lemma SlotFrame(s: seq<int>, z: seq<int>, k: nat, v: int, w: int, N: nat, c: nat, l: nat, r: nat, p: int)
    requires |s| == 2 * N && |z| == 2 * N && 1 <= k < 2 * N && !InSub(k, c) && Shape(N, c, l, r)
    ensures Eval(s[k := v], z[k := w], N, c, l, r, p) == Eval(s, z, N, c, l, r, p)
    ensures Ok(s[k := v], z[k := w], N, c, l, r) == Ok(s, z, N, c, l, r)
  {
    SlotOutside(s, z, k, v, w, c);
    EvalFrame(s, z, s[k := v], z[k := w], N, c, l, r, p);
    OkFrame(s, z, s[k := v], z[k := w], N, c, l, r);
  }

  /** A child's subtree changed: the sibling's elements and invariant, and the parent's slot, are unchanged. */
  lemma SiblingKept(sA: seq<int>, zA: seq<int>, sB: seq<int>, zB: seq<int>, N: nat, n: nat, c: nat, o: nat, ol: nat, or: nat)
    requires |sA| == 2 * N && |zA| == 2 * N && 1 <= n < 2 * N
    requires (c == 2 * n && o == 2 * n + 1) || (c == 2 * n + 1 && o == 2 * n)
    requires Shape(N, o, ol, or) && SameOutside(sA, zA, sB, zB, c)
    ensures Eval(sB, zB, N, o, ol, or, 0) == Eval(sA, zA, N, o, ol, or, 0)
    ensures Ok(sB, zB, N, o, ol, or) == Ok(sA, zA, N, o, ol, or)
    ensures sB[n] == sA[n] && zB[n] == zA[n] && SameOutside(sA, zA, sB, zB, n)
  {
    OutsideSibling(sA, zA, sB, zB, n, c, o);
    EvalFrame(sA, zA, sB, zB, N, o, ol, or, 0);
    OkFrame(sA, zA, sB, zB, N, o, ol, or);
    OutsideGrow(sA, zA, sB, zB, n, c);
  }

  /** `(lz + add) * len`, distributed. */
  lemma ApplyArith(lz: int, add: int, len: int)
    ensures (lz + add) * len == lz * len + add * len
  {
  }

  /**
   * `apply(node, len, add)` on a node of width `len`: its elements all gain
   * `add`, as if `add` were owed from above.
   */
  lemma EvalApply(s: seq<int>, z: seq<int>, N: nat, n: nat, l: nat, r: nat, len: nat, add: int, p: int)
    requires |s| == 2 * N && |z| == 2 * N && Shape(N, n, l, r) && len == r - l + 1
    ensures Eval(s[n := s[n] + add * len], z[n := z[n] + add], N, n, l, r, p) == Eval(s, z, N, n, l, r, p + add)
  {
    var s', z' := s[n := s[n] + add * len], z[n := z[n] + add];
    if l == r {
      LeafEval(s, z, N, n, l, p + add);
      LeafEval(s', z', N, n, l, p);
      assert add * len == add;
      assert [s'[n] + p] == [s[n] + (p + add)];
    } else {
      var mid := (l + r) / 2;
      var q := p + z'[n];
      NodeUnfold(s', z', N, n, l, mid, r, p, q);
      NodeUnfold(s, z, N, n, l, mid, r, p + add, q);
      SlotOutside(s, z, n, s'[n], z'[n], 2 * n);
      SlotOutside(s, z, n, s'[n], z'[n], 2 * n + 1);
      EvalFrame(s, z, s', z', N, 2 * n, l, mid, q);
      EvalFrame(s, z, s', z', N, 2 * n + 1, mid + 1, r, q);
    }
  }

  /** ... and its invariant is kept. */
  lemma OkApply(s: seq<int>, z: seq<int>, N: nat, n: nat, l: nat, r: nat, len: nat, add: int)
    requires |s| == 2 * N && |z| == 2 * N && Shape(N, n, l, r) && len == r - l + 1
    ensures Ok(s[n := s[n] + add * len], z[n := z[n] + add], N, n, l, r) == Ok(s, z, N, n, l, r)
  {
    var s', z' := s[n := s[n] + add * len], z[n := z[n] + add];
    if l < r {
      var mid := (l + r) / 2;
      OkUnfold(s, z, N, n, l, mid, r);
      OkUnfold(s', z', N, n, l, mid, r);
      SlotOutside(s, z, n, s'[n], z'[n], 2 * n);
      SlotOutside(s, z, n, s'[n], z'[n], 2 * n + 1);
      OkFrame(s, z, s', z', N, 2 * n, l, mid);
      OkFrame(s, z, s', z', N, 2 * n + 1, mid + 1, r);
      ApplyArith(z[n], add, len);
    }
  }

  /** Adding `add` at every position of `[a, b]`, when a node's range lies inside it, adds it to all its elements. */
  lemma AddOnCover(x: seq<int>, lo: int, a: int, b: int, v: int)
    requires a <= lo && lo + |x| - 1 <= b
    ensures AddOn(x, lo, a, b, v) == AddAll(x, v)
  {
  }

  /** ... and changes nothing when the node's range misses it. */
  lemma AddOnMiss(x: seq<int>, lo: int, a: int, b: int, v: int)
    requires lo + |x| <= a || b < lo
    ensures AddOn(x, lo, a, b, v) == x
  {
  }

  lemma AddOnConcat(x: seq<int>, y: seq<int>, lo: int, a: int, b: int, v: int)
    ensures AddOn(x + y, lo, a, b, v) == AddOn(x, lo, a, b, v) + AddOn(y, lo + |x|, a, b, v)
  {
  }

  /** Masking to `[a, b]` keeps a node whose range lies inside it. */
  lemma MaskCover(x: seq<int>, lo: int, a: int, b: int)
    requires a <= lo && lo + |x| - 1 <= b
    ensures Mask(x, lo, a, b) == x
  {
  }

  /** ... and sums to zero on a node whose range misses it. */
  lemma MaskMiss(x: seq<int>, lo: int, a: int, b: int)
    requires lo + |x| <= a || b < lo
    ensures Sum(Mask(x, lo, a, b)) == 0
  {
    SumZeros(Mask(x, lo, a, b));
  }

  lemma MaskConcat(x: seq<int>, y: seq<int>, lo: int, a: int, b: int)
    ensures Sum(Mask(x + y, lo, a, b)) == Sum(Mask(x, lo, a, b)) + Sum(Mask(y, lo + |x|, a, b))
  {
    assert Mask(x + y, lo, a, b) == Mask(x, lo, a, b) + Mask(y, lo + |x|, a, b);
    SumConcat(Mask(x, lo, a, b), Mask(y, lo + |x|, a, b));
  }

  /** Masking the whole sequence to `[a, b]` sums the slice `[a, b]`. */
  lemma MaskSlice(s: seq<int>, a: nat, b: nat)
    requires a <= b < |s|
    ensures Sum(Mask(s, 0, a, b)) == Sum(s[a..b + 1])
  {
    var m := Mask(s, 0, a, b);
    assert m == m[..a] + s[a..b + 1] + m[b + 1..];
    SumConcat(m[..a] + s[a..b + 1], m[b + 1..]);
    SumConcat(m[..a], s[a..b + 1]);
    SumZeros(m[..a]);
    SumZeros(m[b + 1..]);
  }

  /** Arrays of zeros: every invariant holds and every element is zero. */
  lemma {:induction false} ZeroTree(s: seq<int>, z: seq<int>, N: nat, n: nat, l: nat, r: nat)
    requires |s| == 2 * N && |z| == 2 * N && Shape(N, n, l, r)
    requires forall k :: 0 <= k < 2 * N ==> s[k] == 0 && z[k] == 0
    ensures Ok(s, z, N, n, l, r) && Eval(s, z, N, n, l, r, 0) == seq(r - l + 1, _ => 0)
    decreases r - l
  {
    if l == r {
      LeafEval(s, z, N, n, l, 0);
    } else {
      var mid := (l + r) / 2;
      NodeUnfold(s, z, N, n, l, mid, r, 0, 0);
      OkUnfold(s, z, N, n, l, mid, r);
      ZeroTree(s, z, N, 2 * n, l, mid);
      ZeroTree(s, z, N, 2 * n + 1, mid + 1, r);
    }
  }

  /** After `push`, the left child holds the elements it held with the node's add owed to it. */
  lemma PushLeftEval(s: seq<int>, z: seq<int>, s': seq<int>, z': seq<int>, N: nat, n: nat, l: nat, mid: nat, h: nat)
    requires |s| == 2 * N && |z| == 2 * N && 1 <= n && 2 * n + 1 < 2 * N
    requires Shape(N, 2 * n, l, mid) && h == mid - l + 1
    requires s' == s[2 * n := s[2 * n] + z[n] * h][2 * n + 1 := s[2 * n + 1] + z[n] * h]
    requires z' == z[2 * n := z[2 * n] + z[n]][2 * n + 1 := z[2 * n + 1] + z[n]][n := 0]
    ensures Eval(s', z', N, 2 * n, l, mid, 0) == Eval(s, z, N, 2 * n, l, mid, z[n])
  {
    var d := z[n];
    var s1, z1 := s[2 * n := s[2 * n] + d * h], z[2 * n := z[2 * n] + d];
    var s2, z2 := s1[2 * n + 1 := s1[2 * n + 1] + d * h], z1[2 * n + 1 := z1[2 * n + 1] + d];
    var s3 := s2[n := s2[n]];
    assert s3 == s2;
    assert s' == s3 && z' == z2[n := 0];
    SlotFrame(s2, z2, n, s2[n], 0, N, 2 * n, l, mid, 0);
    SlotFrame(s1, z1, 2 * n + 1, s2[2 * n + 1], z2[2 * n + 1], N, 2 * n, l, mid, 0);
    assert s1[2 * n] == s[2 * n] + d * h && z1[2 * n] == z[2 * n] + d;
    EvalApply(s, z, N, 2 * n, l, mid, h, d, 0);
  }

  /** ... and keeps its invariant exactly when it held before. */
  lemma PushLeftOk(s: seq<int>, z: seq<int>, s': seq<int>, z': seq<int>, N: nat, n: nat, l: nat, mid: nat, h: nat)
    requires |s| == 2 * N && |z| == 2 * N && 1 <= n && 2 * n + 1 < 2 * N
    requires Shape(N, 2 * n, l, mid) && h == mid - l + 1
    requires s' == s[2 * n := s[2 * n] + z[n] * h][2 * n + 1 := s[2 * n + 1] + z[n] * h]
    requires z' == z[2 * n := z[2 * n] + z[n]][2 * n + 1 := z[2 * n + 1] + z[n]][n := 0]
    ensures Ok(s', z', N, 2 * n, l, mid) == Ok(s, z, N, 2 * n, l, mid)
  {
    var d := z[n];
    var s1, z1 := s[2 * n := s[2 * n] + d * h], z[2 * n := z[2 * n] + d];
    var s2, z2 := s1[2 * n + 1 := s1[2 * n + 1] + d * h], z1[2 * n + 1 := z1[2 * n + 1] + d];
    var s3 := s2[n := s2[n]];
    assert s3 == s2;
    assert s' == s3 && z' == z2[n := 0];
    SlotFrame(s2, z2, n, s2[n], 0, N, 2 * n, l, mid, 0);
    SlotFrame(s1, z1, 2 * n + 1, s2[2 * n + 1], z2[2 * n + 1], N, 2 * n, l, mid, 0);
    assert s1[2 * n] == s[2 * n] + d * h && z1[2 * n] == z[2 * n] + d;
    OkApply(s, z, N, 2 * n, l, mid, h, d);
  }

  /** After `push`, the right child holds the elements it held with the node's add owed to it. */
  lemma PushRightEval(s: seq<int>, z: seq<int>, s': seq<int>, z': seq<int>, N: nat, n: nat, mid: nat, r: nat, h: nat)
    requires |s| == 2 * N && |z| == 2 * N && 1 <= n && 2 * n + 1 < 2 * N
    requires Shape(N, 2 * n + 1, mid + 1, r) && h == r - mid
    requires s' == s[2 * n := s[2 * n] + z[n] * h][2 * n + 1 := s[2 * n + 1] + z[n] * h]
    requires z' == z[2 * n := z[2 * n] + z[n]][2 * n + 1 := z[2 * n + 1] + z[n]][n := 0]
    ensures Eval(s', z', N, 2 * n + 1, mid + 1, r, 0) == Eval(s, z, N, 2 * n + 1, mid + 1, r, z[n])
  {
    var d := z[n];
    var s1, z1 := s[2 * n := s[2 * n] + d * h], z[2 * n := z[2 * n] + d];
    var s2, z2 := s1[2 * n + 1 := s1[2 * n + 1] + d * h], z1[2 * n + 1 := z1[2 * n + 1] + d];
    var s3 := s2[n := s2[n]];
    assert s3 == s2;
    assert s' == s3 && z' == z2[n := 0];
    SlotFrame(s2, z2, n, s2[n], 0, N, 2 * n + 1, mid + 1, r, 0);
    assert s1[2 * n + 1] == s[2 * n + 1] && z1[2 * n + 1] == z[2 * n + 1];
    EvalApply(s1, z1, N, 2 * n + 1, mid + 1, r, h, d, 0);
    SlotFrame(s, z, 2 * n, s1[2 * n], z1[2 * n], N, 2 * n + 1, mid + 1, r, d);
  }

  /** ... and keeps its invariant exactly when it held before. */
  lemma PushRightOk(s: seq<int>, z: seq<int>, s': seq<int>, z': seq<int>, N: nat, n: nat, mid: nat, r: nat, h: nat)
    requires |s| == 2 * N && |z| == 2 * N && 1 <= n && 2 * n + 1 < 2 * N
    requires Shape(N, 2 * n + 1, mid + 1, r) && h == r - mid
    requires s' == s[2 * n := s[2 * n] + z[n] * h][2 * n + 1 := s[2 * n + 1] + z[n] * h]
    requires z' == z[2 * n := z[2 * n] + z[n]][2 * n + 1 := z[2 * n + 1] + z[n]][n := 0]
    ensures Ok(s', z', N, 2 * n + 1, mid + 1, r) == Ok(s, z, N, 2 * n + 1, mid + 1, r)
  {
    var d := z[n];
    var s1, z1 := s[2 * n := s[2 * n] + d * h], z[2 * n := z[2 * n] + d];
    var s2, z2 := s1[2 * n + 1 := s1[2 * n + 1] + d * h], z1[2 * n + 1 := z1[2 * n + 1] + d];
    var s3 := s2[n := s2[n]];
    assert s3 == s2;
    assert s' == s3 && z' == z2[n := 0];
    SlotFrame(s2, z2, n, s2[n], 0, N, 2 * n + 1, mid + 1, r, 0);
    assert s1[2 * n + 1] == s[2 * n + 1] && z1[2 * n + 1] == z[2 * n + 1];
    OkApply(s1, z1, N, 2 * n + 1, mid + 1, r, h, d);
    SlotFrame(s, z, 2 * n, s1[2 * n], z1[2 * n], N, 2 * n + 1, mid + 1, r, 0);
  }


  lemma HalvesArith(d: int, h: int)
    ensures d * (2 * h) == d * h + d * h
  {
  }

  /**
   * `push(node, len)` with `d = lazy[node]` owed: both children get
   * `apply(child, len / 2, d)` and the node owes nothing. The node's
   * invariant and elements are kept and only its subtree changes.
   */
  lemma PushPass(s: seq<int>, z: seq<int>, s': seq<int>, z': seq<int>, N: nat, n: nat, l: nat, r: nat, h: nat)
    requires |s| == 2 * N && |z| == 2 * N && Shape(N, n, l, r) && l < r && 2 * n + 1 < 2 * N
    requires Ok(s, z, N, n, l, r) && r - l + 1 == 2 * h
    requires s' == s[2 * n := s[2 * n] + z[n] * h][2 * n + 1 := s[2 * n + 1] + z[n] * h]
    requires z' == z[2 * n := z[2 * n] + z[n]][2 * n + 1 := z[2 * n + 1] + z[n]][n := 0]
    ensures Ok(s', z', N, n, l, r) && Eval(s', z', N, n, l, r, 0) == Eval(s, z, N, n, l, r, 0)
    ensures SameOutside(s, z, s', z', n)
  {
    PushKeepsOk(s, z, s', z', N, n, l, r, h);
    PushKeepsEval(s, z, s', z', N, n, l, r, h);
  }

  /** `push` keeps the node's invariant. */
  lemma PushKeepsOk(s: seq<int>, z: seq<int>, s': seq<int>, z': seq<int>, N: nat, n: nat, l: nat, r: nat, h: nat)
    requires |s| == 2 * N && |z| == 2 * N && Shape(N, n, l, r) && l < r && 2 * n + 1 < 2 * N
    requires r - l + 1 == 2 * h
    requires s' == s[2 * n := s[2 * n] + z[n] * h][2 * n + 1 := s[2 * n + 1] + z[n] * h]
    requires z' == z[2 * n := z[2 * n] + z[n]][2 * n + 1 := z[2 * n + 1] + z[n]][n := 0]
    requires Ok(s, z, N, n, l, r)
    ensures Ok(s', z', N, n, l, r)
  {
    ShapeChildren(N, n, l, r);
    var mid := (l + r) / 2;
    PushLeftOk(s, z, s', z', N, n, l, mid, h);
    PushRightOk(s, z, s', z', N, n, mid, r, h);
    HalvesArith(z[n], h);
  }

  /** `push` keeps the node's elements and touches nothing outside its subtree. */
  lemma PushKeepsEval(s: seq<int>, z: seq<int>, s': seq<int>, z': seq<int>, N: nat, n: nat, l: nat, r: nat, h: nat)
    requires |s| == 2 * N && |z| == 2 * N && Shape(N, n, l, r) && l < r && 2 * n + 1 < 2 * N
    requires r - l + 1 == 2 * h
    requires s' == s[2 * n := s[2 * n] + z[n] * h][2 * n + 1 := s[2 * n + 1] + z[n] * h]
    requires z' == z[2 * n := z[2 * n] + z[n]][2 * n + 1 := z[2 * n + 1] + z[n]][n := 0]
    ensures Eval(s', z', N, n, l, r, 0) == Eval(s, z, N, n, l, r, 0)
    ensures SameOutside(s, z, s', z', n)
  {
    ShapeChildren(N, n, l, r);
    var mid := (l + r) / 2;
    PushLeftEval(s, z, s', z', N, n, l, mid, h);
    PushRightEval(s, z, s', z', N, n, mid, r, h);
    assert InSub(2 * n, n) && InSub(2 * n + 1, n) && InSub(n, n);
  }

  // ---------------------------------------------------------------------
  // Range add

  /** A node whose range lies inside `[ql, qr]` takes the whole add with `apply`. */
  lemma CoveredPass(s: seq<int>, z: seq<int>, N: nat, n: nat, l: nat, r: nat, len: nat, ql: nat, qr: nat, val: int)
    requires |s| == 2 * N && |z| == 2 * N && Shape(N, n, l, r) && len == r - l + 1
    requires Ok(s, z, N, n, l, r) && ql <= l && r <= qr
    ensures var s', z' := s[n := s[n] + val * len], z[n := z[n] + val];
      Ok(s', z', N, n, l, r) &&
      Eval(s', z', N, n, l, r, 0) == AddOn(Eval(s, z, N, n, l, r, 0), l, ql, qr, val) &&
      SameOutside(s, z, s', z', n)
  {
    OkApply(s, z, N, n, l, r, len, val);
    EvalApply(s, z, N, n, l, r, len, val, 0);
    EvalShift(s, z, N, n, l, r, 0, val);
    EvalLen(s, z, N, n, l, r, 0);
    AddOnCover(Eval(s, z, N, n, l, r, 0), l, ql, qr, val);
    assert InSub(n, n);
  }

  /**
   * One child `c` of node `n` (range `[cl, cr]`, sibling `o`) went from
   * `sA` to `sB`: either `update` ran on it (`hit`) or the add misses it.
   * Either way its elements took the add on `[ql, qr]`, and the sibling
   * and the node's own slot are untouched.
   */
  lemma AddStage(sA: seq<int>, zA: seq<int>, sB: seq<int>, zB: seq<int>, N: nat, n: nat,
                 c: nat, cl: nat, cr: nat, o: nat, ol: nat, or: nat, ql: nat, qr: nat, val: int, hit: bool)
    requires |sA| == 2 * N && |zA| == 2 * N && |sB| == 2 * N && |zB| == 2 * N && 1 <= n < 2 * N
    requires (c == 2 * n && o == 2 * n + 1) || (c == 2 * n + 1 && o == 2 * n)
    requires Shape(N, c, cl, cr) && Shape(N, o, ol, or) && Ok(sA, zA, N, c, cl, cr)
    requires hit ==> Ok(sB, zB, N, c, cl, cr) && SameOutside(sA, zA, sB, zB, c) &&
                     Eval(sB, zB, N, c, cl, cr, 0) == AddOn(Eval(sA, zA, N, c, cl, cr, 0), cl, ql, qr, val)
    requires !hit ==> sB == sA && zB == zA && (cr < ql || qr < cl)
    ensures Ok(sB, zB, N, c, cl, cr) && Eval(sB, zB, N, c, cl, cr, 0) == AddOn(Eval(sA, zA, N, c, cl, cr, 0), cl, ql, qr, val)
    ensures Eval(sB, zB, N, o, ol, or, 0) == Eval(sA, zA, N, o, ol, or, 0) && Ok(sB, zB, N, o, ol, or) == Ok(sA, zA, N, o, ol, or)
    ensures sB[n] == sA[n] && zB[n] == zA[n] && SameOutside(sA, zA, sB, zB, n)
  {
    if hit {
      SiblingKept(sA, zA, sB, zB, N, n, c, o, ol, or);
    } else {
      EvalLen(sA, zA, N, c, cl, cr, 0);
      AddOnMiss(Eval(sA, zA, N, c, cl, cr, 0), cl, ql, qr, val);
    }
  }

  /**
   * The end of `update` on an inner node: after `push` (its `lazy` is now
   * zero) and both children's stages, storing the children's sum restores
   * the invariant, and the node's elements took the add on `[ql, qr]`.
   */
  lemma AddJoin(s1: seq<int>, z1: seq<int>, s3: seq<int>, z3: seq<int>, s4: seq<int>, z4: seq<int>,
                N: nat, n: nat, l: nat, mid: nat, r: nat, ql: nat, qr: nat, val: int)
    requires |s1| == 2 * N && |z1| == 2 * N && |s3| == 2 * N && |z3| == 2 * N
    requires Shape(N, n, l, r) && l < r && mid == (l + r) / 2 && z1[n] == 0
    requires Shape(N, 2 * n, l, mid) && Shape(N, 2 * n + 1, mid + 1, r) && 2 * n + 1 < 2 * N
    requires Ok(s3, z3, N, 2 * n, l, mid) && Ok(s3, z3, N, 2 * n + 1, mid + 1, r)
    requires Eval(s3, z3, N, 2 * n, l, mid, 0) == AddOn(Eval(s1, z1, N, 2 * n, l, mid, 0), l, ql, qr, val)
    requires Eval(s3, z3, N, 2 * n + 1, mid + 1, r, 0) == AddOn(Eval(s1, z1, N, 2 * n + 1, mid + 1, r, 0), mid + 1, ql, qr, val)
    requires z3[n] == 0 && SameOutside(s1, z1, s3, z3, n)
    requires s4 == s3[n := s3[2 * n] + s3[2 * n + 1]] && z4 == z3
    ensures Ok(s4, z4, N, n, l, r) && SameOutside(s1, z1, s4, z4, n)
    ensures Eval(s4, z4, N, n, l, r, 0) == AddOn(Eval(s1, z1, N, n, l, r, 0), l, ql, qr, val)
  {
    assert z4 == z3[n := 0];
    JoinFrame(s3, z3, N, n, l, mid, r, s4[n]);
    NodeSplit(s1, z1, N, n, l, mid, r);
    NodeSplit(s4, z4, N, n, l, mid, r);
    EvalLen(s1, z1, N, 2 * n, l, mid, 0);
    AddOnConcat(Eval(s1, z1, N, 2 * n, l, mid, 0), Eval(s1, z1, N, 2 * n + 1, mid + 1, r, 0), l, ql, qr, val);
    assert InSub(n, n);
  }

  /** An inner node with nothing pending: its elements are its children's, its invariant theirs plus the sum. */
  lemma NodeSplit(s: seq<int>, z: seq<int>, N: nat, n: nat, l: nat, mid: nat, r: nat)
    requires |s| == 2 * N && |z| == 2 * N && Shape(N, n, l, r) && l < r && mid == (l + r) / 2 && z[n] == 0
    ensures Shape(N, 2 * n, l, mid) && Shape(N, 2 * n + 1, mid + 1, r) && 2 * n + 1 < 2 * N
    ensures Eval(s, z, N, n, l, r, 0) == Eval(s, z, N, 2 * n, l, mid, 0) + Eval(s, z, N, 2 * n + 1, mid + 1, r, 0)
    ensures Ok(s, z, N, n, l, r) <==>
      Ok(s, z, N, 2 * n, l, mid) && Ok(s, z, N, 2 * n + 1, mid + 1, r) && s[n] == s[2 * n] + s[2 * n + 1]
  {
    ShapeChildren(N, n, l, r);
  }

  /** Storing a new sum at an inner node whose `lazy` is zero leaves its children alone. */
  lemma JoinFrame(s: seq<int>, z: seq<int>, N: nat, n: nat, l: nat, mid: nat, r: nat, v: int)
    requires |s| == 2 * N && |z| == 2 * N && 1 <= n && 2 * n + 1 < 2 * N && z[n] == 0
    requires Shape(N, 2 * n, l, mid) && Shape(N, 2 * n + 1, mid + 1, r)
    ensures Eval(s[n := v], z[n := 0], N, 2 * n, l, mid, 0) == Eval(s, z, N, 2 * n, l, mid, 0)
    ensures Eval(s[n := v], z[n := 0], N, 2 * n + 1, mid + 1, r, 0) == Eval(s, z, N, 2 * n + 1, mid + 1, r, 0)
    ensures Ok(s[n := v], z[n := 0], N, 2 * n, l, mid) == Ok(s, z, N, 2 * n, l, mid)
    ensures Ok(s[n := v], z[n := 0], N, 2 * n + 1, mid + 1, r) == Ok(s, z, N, 2 * n + 1, mid + 1, r)
  {
    SlotFrame(s, z, n, v, 0, N, 2 * n, l, mid, 0);
    SlotFrame(s, z, n, v, 0, N, 2 * n + 1, mid + 1, r, 0);
  }

  // ---------------------------------------------------------------------
  // Range sum

  /** A node whose range lies inside `[ql, qr]` answers with its stored sum. */
  lemma QueryCovered(s: seq<int>, z: seq<int>, N: nat, n: nat, l: nat, r: nat, ql: nat, qr: nat)
    requires |s| == 2 * N && |z| == 2 * N && Shape(N, n, l, r) && Ok(s, z, N, n, l, r) && ql <= l && r <= qr
    ensures s[n] == Sum(Mask(Eval(s, z, N, n, l, r, 0), l, ql, qr))
  {
    EvalSum(s, z, N, n, l, r, 0);
    EvalLen(s, z, N, n, l, r, 0);
    MaskCover(Eval(s, z, N, n, l, r, 0), l, ql, qr);
  }

  /**
   * One child `c` of node `n` went from `sA` to `sB`: either `query_impl`
   * ran on it (`hit`) and answered `part`, or the query misses it and
   * `part` is zero. Either way `part` is the sum of its elements inside
   * `[ql, qr]`, and its elements, its sibling and the node's slot are kept.
   */
  lemma SumStage(sA: seq<int>, zA: seq<int>, sB: seq<int>, zB: seq<int>, N: nat, n: nat,
                 c: nat, cl: nat, cr: nat, o: nat, ol: nat, or: nat, ql: nat, qr: nat, part: int, hit: bool)
    requires |sA| == 2 * N && |zA| == 2 * N && |sB| == 2 * N && |zB| == 2 * N && 1 <= n < 2 * N
    requires (c == 2 * n && o == 2 * n + 1) || (c == 2 * n + 1 && o == 2 * n)
    requires Shape(N, c, cl, cr) && Shape(N, o, ol, or) && Ok(sA, zA, N, c, cl, cr)
    requires hit ==> Ok(sB, zB, N, c, cl, cr) && SameOutside(sA, zA, sB, zB, c) &&
                     Eval(sB, zB, N, c, cl, cr, 0) == Eval(sA, zA, N, c, cl, cr, 0) &&
                     part == Sum(Mask(Eval(sA, zA, N, c, cl, cr, 0), cl, ql, qr))
    requires !hit ==> sB == sA && zB == zA && part == 0 && (cr < ql || qr < cl)
    ensures Ok(sB, zB, N, c, cl, cr) && Eval(sB, zB, N, c, cl, cr, 0) == Eval(sA, zA, N, c, cl, cr, 0)
    ensures part == Sum(Mask(Eval(sA, zA, N, c, cl, cr, 0), cl, ql, qr))
    ensures Eval(sB, zB, N, o, ol, or, 0) == Eval(sA, zA, N, o, ol, or, 0) && Ok(sB, zB, N, o, ol, or) == Ok(sA, zA, N, o, ol, or)
    ensures sB[n] == sA[n] && zB[n] == zA[n] && SameOutside(sA, zA, sB, zB, n)
  {
    if hit {
      SiblingKept(sA, zA, sB, zB, N, n, c, o, ol, or);
    } else {
      EvalLen(sA, zA, N, c, cl, cr, 0);
      MaskMiss(Eval(sA, zA, N, c, cl, cr, 0), cl, ql, qr);
    }
  }

  /**
   * The end of `query_impl` on an inner node: after `push` and both
   * children's stages, the two parts add up to the node's elements inside
   * `[ql, qr]`, and the node keeps its elements and its invariant.
   */
  lemma SumJoin(s1: seq<int>, z1: seq<int>, s3: seq<int>, z3: seq<int>,
                N: nat, n: nat, l: nat, mid: nat, r: nat, ql: nat, qr: nat, a: int, b: int)
    requires |s1| == 2 * N && |z1| == 2 * N && |s3| == 2 * N && |z3| == 2 * N
    requires Shape(N, n, l, r) && l < r && mid == (l + r) / 2 && z1[n] == 0 && Ok(s1, z1, N, n, l, r)
    requires Shape(N, 2 * n, l, mid) && Shape(N, 2 * n + 1, mid + 1, r) && 2 * n + 1 < 2 * N
    requires Ok(s3, z3, N, 2 * n, l, mid) && Ok(s3, z3, N, 2 * n + 1, mid + 1, r)
    requires Eval(s3, z3, N, 2 * n, l, mid, 0) == Eval(s1, z1, N, 2 * n, l, mid, 0)
    requires Eval(s3, z3, N, 2 * n + 1, mid + 1, r, 0) == Eval(s1, z1, N, 2 * n + 1, mid + 1, r, 0)
    requires a == Sum(Mask(Eval(s1, z1, N, 2 * n, l, mid, 0), l, ql, qr))
    requires b == Sum(Mask(Eval(s1, z1, N, 2 * n + 1, mid + 1, r, 0), mid + 1, ql, qr))
    requires s3[n] == s1[n] && z3[n] == 0
    ensures Ok(s3, z3, N, n, l, r) && Eval(s3, z3, N, n, l, r, 0) == Eval(s1, z1, N, n, l, r, 0)
    ensures a + b == Sum(Mask(Eval(s1, z1, N, n, l, r, 0), l, ql, qr))
  {
    SumJoinKeep(s1, z1, s3, z3, N, n, l, mid, r);
    NodeSplit(s1, z1, N, n, l, mid, r);
    EvalLen(s1, z1, N, 2 * n, l, mid, 0);
    MaskParts(Eval(s1, z1, N, 2 * n, l, mid, 0), Eval(s1, z1, N, 2 * n + 1, mid + 1, r, 0), Eval(s1, z1, N, n, l, r, 0),
              l, mid + 1, ql, qr, a, b);
  }

  /** The masked sums of two halves add up to the masked sum of the whole. */
  lemma MaskParts(x: seq<int>, y: seq<int>, v: seq<int>, lo: int, lo2: int, ql: int, qr: int, a: int, b: int)
    requires v == x + y && lo2 == lo + |x|
    requires a == Sum(Mask(x, lo, ql, qr)) && b == Sum(Mask(y, lo2, ql, qr))
    ensures a + b == Sum(Mask(v, lo, ql, qr))
  {
    MaskConcat(x, y, lo, ql, qr);
  }

  /** ... the node's elements and invariant survive the children's queries. */
  lemma SumJoinKeep(s1: seq<int>, z1: seq<int>, s3: seq<int>, z3: seq<int>, N: nat, n: nat, l: nat, mid: nat, r: nat)
    requires |s1| == 2 * N && |z1| == 2 * N && |s3| == 2 * N && |z3| == 2 * N
    requires Shape(N, n, l, r) && l < r && mid == (l + r) / 2 && z1[n] == 0 && Ok(s1, z1, N, n, l, r)
    requires Shape(N, 2 * n, l, mid) && Shape(N, 2 * n + 1, mid + 1, r)
    requires Ok(s3, z3, N, 2 * n, l, mid) && Ok(s3, z3, N, 2 * n + 1, mid + 1, r)
    requires Eval(s3, z3, N, 2 * n, l, mid, 0) == Eval(s1, z1, N, 2 * n, l, mid, 0)
    requires Eval(s3, z3, N, 2 * n + 1, mid + 1, r, 0) == Eval(s1, z1, N, 2 * n + 1, mid + 1, r, 0)
    requires s3[n] == s1[n] && z3[n] == 0
    ensures Ok(s3, z3, N, n, l, r) && Eval(s3, z3, N, n, l, r, 0) == Eval(s1, z1, N, n, l, r, 0)
  {
    NodeSplit(s1, z1, N, n, l, mid, r);
    NodeSplit(s3, z3, N, n, l, mid, r);
    SameSum(s1, z1, s3, z3, N, 2 * n, l, mid);
    SameSum(s1, z1, s3, z3, N, 2 * n + 1, mid + 1, r);
  }


  /** Two trees that both keep the invariant and hold the same elements under `n` store the same sum there. */
  lemma SameSum(s: seq<int>, z: seq<int>, s': seq<int>, z': seq<int>, N: nat, n: nat, l: nat, r: nat)
    requires |s| == 2 * N && |z| == 2 * N && |s'| == 2 * N && |z'| == 2 * N && Shape(N, n, l, r)
    requires Ok(s, z, N, n, l, r) && Ok(s', z', N, n, l, r)
    requires Eval(s', z', N, n, l, r, 0) == Eval(s, z, N, n, l, r, 0)
    ensures s'[n] == s[n]
  {
    EvalSum(s, z, N, n, l, r, 0);
    EvalSum(s', z', N, n, l, r, 0);
  }

  // ---------------------------------------------------------------------
  // The steps of `update` and `query_impl`, each a fact about snapshots of
  // the two arrays. Their tree-wide parts are kept behind `Sealed`, keyed
  // by the node, so that a method's context holds them without unfolding.

  /** Node `n` of a well-shaped tree keeps the sum invariant. */
  ghost predicate Inv(s: seq<int>, z: seq<int>, N: nat, n: nat, l: nat, r: nat) {
    |s| == 2 * N && |z| == 2 * N && Shape(N, n, l, r) &&
    forall k {:trigger Sealed(n, k)} :: Sealed(n, k) ==> Ok(s, z, N, n, l, r)
  }

  /** Node `n` holds the same elements in `s'`, `z'` as in `s`, `z`. */
  ghost predicate Same(s: seq<int>, z: seq<int>, s': seq<int>, z': seq<int>, N: nat, n: nat, l: nat, r: nat) {
    |s| == 2 * N && |z| == 2 * N && |s'| == 2 * N && |z'| == 2 * N && Shape(N, n, l, r) &&
    forall k {:trigger Sealed(n, k)} :: Sealed(n, k) ==> Eval(s', z', N, n, l, r, 0) == Eval(s, z, N, n, l, r, 0)
  }

  /** Slot `n` is unchanged, and so is everything outside its subtree. */
  ghost predicate SlotKept(s: seq<int>, z: seq<int>, s': seq<int>, z': seq<int>, n: nat) {
    1 <= n < |s| && n < |z| && |s'| == |s| && |z'| == |z| &&
    forall k {:trigger Sealed(n, k)} :: Sealed(n, k) ==> s'[n] == s[n] && z'[n] == z[n] && SameOutside(s, z, s', z', n)
  }

  /** `push` on inner node `n` took `s`, `z` to `s'`, `z'`: same elements, invariant kept, nothing pending at `n`. */
  ghost predicate Pushed(s: seq<int>, z: seq<int>, s': seq<int>, z': seq<int>, N: nat, n: nat, l: nat, r: nat) {
    |s| == 2 * N && |z| == 2 * N && Inv(s', z', N, n, l, r) && l < r && z'[n] == 0 &&
    forall k {:trigger Sealed(n, k)} :: Sealed(n, k) ==>
      SameOutside(s, z, s', z', n) && Eval(s', z', N, n, l, r, 0) == Eval(s, z, N, n, l, r, 0)
  }

  /** Node `n` went from `s`, `z` to `s'`, `z'` by adding `val` on `[ql, qr]`, keeping the invariant. */
  ghost predicate Added(s: seq<int>, z: seq<int>, s': seq<int>, z': seq<int>, N: nat, n: nat, l: nat, r: nat,
                        ql: nat, qr: nat, val: int) {
    |s| == 2 * N && |z| == 2 * N && Inv(s', z', N, n, l, r) &&
    forall k {:trigger Sealed(n, k)} :: Sealed(n, k) ==>
      SameOutside(s, z, s', z', n) && Eval(s', z', N, n, l, r, 0) == AddOn(Eval(s, z, N, n, l, r, 0), l, ql, qr, val)
  }

  /** Node `n` went from `s`, `z` to `s'`, `z'` keeping its elements and invariant, and `res` sums its elements on `[ql, qr]`. */
  ghost predicate Summed(s: seq<int>, z: seq<int>, s': seq<int>, z': seq<int>, N: nat, n: nat, l: nat, r: nat,
                         ql: nat, qr: nat, res: int) {
    |s| == 2 * N && |z| == 2 * N && Inv(s', z', N, n, l, r) &&
    forall k {:trigger Sealed(n, k)} :: Sealed(n, k) ==>
      SameOutside(s, z, s', z', n) && Eval(s', z', N, n, l, r, 0) == Eval(s, z, N, n, l, r, 0) &&
      res == Sum(Mask(Eval(s, z, N, n, l, r, 0), l, ql, qr))
  }

  /** `Added` without the frame: what an add leaves of node `c` once its sibling has had its turn too. */
  ghost predicate AddOf(s: seq<int>, z: seq<int>, s': seq<int>, z': seq<int>, N: nat, c: nat, l: nat, r: nat,
                        ql: nat, qr: nat, val: int) {
    |s| == 2 * N && |z| == 2 * N && Inv(s', z', N, c, l, r) &&
    forall k {:trigger Sealed(c, k)} :: Sealed(c, k) ==>
      Eval(s', z', N, c, l, r, 0) == AddOn(Eval(s, z, N, c, l, r, 0), l, ql, qr, val)
  }

  /** `Summed` without the frame. */
  ghost predicate SumOf(s: seq<int>, z: seq<int>, s': seq<int>, z': seq<int>, N: nat, c: nat, l: nat, r: nat,
                        ql: nat, qr: nat, part: int) {
    |s| == 2 * N && |z| == 2 * N && Inv(s', z', N, c, l, r) &&
    forall k {:trigger Sealed(c, k)} :: Sealed(c, k) ==>
      Eval(s', z', N, c, l, r, 0) == Eval(s, z, N, c, l, r, 0) && part == Sum(Mask(Eval(s, z, N, c, l, r, 0), l, ql, qr))
  }

  /** Child `c` of `n` is done (`Added`); its sibling `o` and the slot of `n` are as they were. */
  ghost predicate AddStaged(sA: seq<int>, zA: seq<int>, sB: seq<int>, zB: seq<int>, N: nat, n: nat,
                            c: nat, cl: nat, cr: nat, o: nat, ol: nat, or: nat, ql: nat, qr: nat, val: int) {
    Added(sA, zA, sB, zB, N, c, cl, cr, ql, qr, val) && Inv(sB, zB, N, o, ol, or) &&
    Same(sA, zA, sB, zB, N, o, ol, or) && SlotKept(sA, zA, sB, zB, n)
  }

  /** Child `c` of `n` is done (`Summed`, answering `part`); its sibling `o` and the slot of `n` are as they were. */
  ghost predicate SumStaged(sA: seq<int>, zA: seq<int>, sB: seq<int>, zB: seq<int>, N: nat, n: nat,
                            c: nat, cl: nat, cr: nat, o: nat, ol: nat, or: nat, ql: nat, qr: nat, part: int) {
    Summed(sA, zA, sB, zB, N, c, cl, cr, ql, qr, part) && Inv(sB, zB, N, o, ol, or) &&
    Same(sA, zA, sB, zB, N, o, ol, or) && SlotKept(sA, zA, sB, zB, n)
  }

  lemma SealInv(s: seq<int>, z: seq<int>, N: nat, n: nat, l: nat, r: nat)
    requires |s| == 2 * N && |z| == 2 * N && Shape(N, n, l, r) && Ok(s, z, N, n, l, r)
    ensures Inv(s, z, N, n, l, r)
  {
    forall k | Sealed(n, k)
      ensures Ok(s, z, N, n, l, r)
    {
    }
  }

  lemma InvOpen(s: seq<int>, z: seq<int>, N: nat, n: nat, l: nat, r: nat)
    requires Inv(s, z, N, n, l, r)
    ensures Ok(s, z, N, n, l, r)
  {
    assert Sealed(n, 0);
  }

  lemma SealSame(s: seq<int>, z: seq<int>, s': seq<int>, z': seq<int>, N: nat, n: nat, l: nat, r: nat)
    requires |s| == 2 * N && |z| == 2 * N && |s'| == 2 * N && |z'| == 2 * N && Shape(N, n, l, r)
    requires Eval(s', z', N, n, l, r, 0) == Eval(s, z, N, n, l, r, 0)
    ensures Same(s, z, s', z', N, n, l, r)
  {
    forall k | Sealed(n, k)
      ensures Eval(s', z', N, n, l, r, 0) == Eval(s, z, N, n, l, r, 0)
    {
    }
  }

  lemma SealSlot(s: seq<int>, z: seq<int>, s': seq<int>, z': seq<int>, n: nat)
    requires 1 <= n < |s| && n < |z| && |s'| == |s| && |z'| == |z| && s'[n] == s[n] && z'[n] == z[n] && SameOutside(s, z, s', z', n)
    ensures SlotKept(s, z, s', z', n)
  {
    forall k | Sealed(n, k)
      ensures s'[n] == s[n] && z'[n] == z[n] && SameOutside(s, z, s', z', n)
    {
    }
  }

  /** Two children's turns kept the slot of `n` and everything outside its subtree. */
  lemma SlotsOpen(s1: seq<int>, z1: seq<int>, s2: seq<int>, z2: seq<int>, s3: seq<int>, z3: seq<int>, n: nat)
    requires SlotKept(s1, z1, s2, z2, n) && SlotKept(s2, z2, s3, z3, n)
    ensures s3[n] == s1[n] && z3[n] == z1[n] && SameOutside(s1, z1, s3, z3, n)
  {
    assert Sealed(n, 0);
    OutsideTrans(s1, z1, s2, z2, s3, z3, n);
  }

  lemma SealAdded(s: seq<int>, z: seq<int>, s': seq<int>, z': seq<int>, N: nat, n: nat, l: nat, r: nat, ql: nat, qr: nat, val: int)
    requires |s| == 2 * N && |z| == 2 * N && |s'| == 2 * N && |z'| == 2 * N && Shape(N, n, l, r) && Ok(s', z', N, n, l, r)
    requires SameOutside(s, z, s', z', n) && Eval(s', z', N, n, l, r, 0) == AddOn(Eval(s, z, N, n, l, r, 0), l, ql, qr, val)
    ensures Added(s, z, s', z', N, n, l, r, ql, qr, val)
  {
    SealInv(s', z', N, n, l, r);
    forall k | Sealed(n, k)
      ensures SameOutside(s, z, s', z', n) && Eval(s', z', N, n, l, r, 0) == AddOn(Eval(s, z, N, n, l, r, 0), l, ql, qr, val)
    {
    }
  }

  lemma SealSummed(s: seq<int>, z: seq<int>, s': seq<int>, z': seq<int>, N: nat, n: nat, l: nat, r: nat, ql: nat, qr: nat, res: int)
    requires |s| == 2 * N && |z| == 2 * N && |s'| == 2 * N && |z'| == 2 * N && Shape(N, n, l, r) && Ok(s', z', N, n, l, r)
    requires SameOutside(s, z, s', z', n) && Eval(s', z', N, n, l, r, 0) == Eval(s, z, N, n, l, r, 0)
    requires res == Sum(Mask(Eval(s, z, N, n, l, r, 0), l, ql, qr))
    ensures Summed(s, z, s', z', N, n, l, r, ql, qr, res)
  {
    SealInv(s', z', N, n, l, r);
    forall k | Sealed(n, k)
      ensures SameOutside(s, z, s', z', n) && Eval(s', z', N, n, l, r, 0) == Eval(s, z, N, n, l, r, 0) &&
        res == Sum(Mask(Eval(s, z, N, n, l, r, 0), l, ql, qr))
    {
    }
  }

  /** `push` keeps the elements and the invariant of the node and leaves nothing pending there. */
  lemma PushStep(s: seq<int>, z: seq<int>, s': seq<int>, z': seq<int>, N: nat, n: nat, l: nat, r: nat, h: nat)
    requires Inv(s, z, N, n, l, r) && l < r && 2 * n + 1 < 2 * N && r - l + 1 == 2 * h
    requires s' == s[2 * n := s[2 * n] + z[n] * h][2 * n + 1 := s[2 * n + 1] + z[n] * h]
    requires z' == z[2 * n := z[2 * n] + z[n]][2 * n + 1 := z[2 * n + 1] + z[n]][n := 0]
    ensures Pushed(s, z, s', z', N, n, l, r)
  {
    assert Sealed(n, 0);
    PushPass(s, z, s', z', N, n, l, r, h);
    SealInv(s', z', N, n, l, r);
    forall k | Sealed(n, k)
      ensures SameOutside(s, z, s', z', n) && Eval(s', z', N, n, l, r, 0) == Eval(s, z, N, n, l, r, 0)
    {
    }
  }

  /** After `push`, both children keep the invariant. */
  lemma SplitStep(s0: seq<int>, z0: seq<int>, s1: seq<int>, z1: seq<int>, N: nat, n: nat, l: nat, mid: nat, r: nat)
    requires Pushed(s0, z0, s1, z1, N, n, l, r) && mid == (l + r) / 2
    ensures 2 * n + 1 < 2 * N && Inv(s1, z1, N, 2 * n, l, mid) && Inv(s1, z1, N, 2 * n + 1, mid + 1, r)
  {
    InvChildren(s1, z1, N, n, l, mid, r);
  }

  /** `update` on a node inside `[ql, qr]`: `apply` adds `val` to all its elements. */
  lemma CoveredStep(s: seq<int>, z: seq<int>, N: nat, n: nat, l: nat, r: nat, len: nat, ql: nat, qr: nat, val: int)
    requires Inv(s, z, N, n, l, r) && len == r - l + 1 && ql <= l && r <= qr
    ensures Added(s, z, s[n := s[n] + val * len], z[n := z[n] + val], N, n, l, r, ql, qr, val)
  {
    InvOpen(s, z, N, n, l, r);
    CoveredPass(s, z, N, n, l, r, len, ql, qr, val);
    SealAdded(s, z, s[n := s[n] + val * len], z[n := z[n] + val], N, n, l, r, ql, qr, val);
  }

  /** One child's part of `update`: the recursive call when `hit`, otherwise a child the add misses. */
  lemma AddStep(sA: seq<int>, zA: seq<int>, sB: seq<int>, zB: seq<int>, N: nat, n: nat,
                c: nat, cl: nat, cr: nat, o: nat, ol: nat, or: nat, ql: nat, qr: nat, val: int, hit: bool)
    requires |sA| == 2 * N && |zA| == 2 * N && |sB| == 2 * N && |zB| == 2 * N && 1 <= n < 2 * N
    requires (c == 2 * n && o == 2 * n + 1) || (c == 2 * n + 1 && o == 2 * n)
    requires Inv(sA, zA, N, c, cl, cr) && Inv(sA, zA, N, o, ol, or)
    requires hit ==> Added(sA, zA, sB, zB, N, c, cl, cr, ql, qr, val)
    requires !hit ==> sB == sA && zB == zA && (cr < ql || qr < cl)
    ensures AddStaged(sA, zA, sB, zB, N, n, c, cl, cr, o, ol, or, ql, qr, val)
  {
    assert Sealed(c, 0);
    InvOpen(sA, zA, N, o, ol, or);
    AddStage(sA, zA, sB, zB, N, n, c, cl, cr, o, ol, or, ql, qr, val, hit);
    SealAdded(sA, zA, sB, zB, N, c, cl, cr, ql, qr, val);
    SealInv(sB, zB, N, o, ol, or);
    SealSame(sA, zA, sB, zB, N, o, ol, or);
    SealSlot(sA, zA, sB, zB, n);
  }

  /** The first child's add survives its sibling's turn. */
  lemma AddThenSame(sA: seq<int>, zA: seq<int>, sB: seq<int>, zB: seq<int>, sC: seq<int>, zC: seq<int>,
                    N: nat, c: nat, l: nat, r: nat, ql: nat, qr: nat, val: int)
    requires Added(sA, zA, sB, zB, N, c, l, r, ql, qr, val) && Same(sB, zB, sC, zC, N, c, l, r) && Inv(sC, zC, N, c, l, r)
    ensures AddOf(sA, zA, sC, zC, N, c, l, r, ql, qr, val)
  {
    assert Sealed(c, 0);
    forall k | Sealed(c, k)
      ensures Eval(sC, zC, N, c, l, r, 0) == AddOn(Eval(sA, zA, N, c, l, r, 0), l, ql, qr, val)
    {
    }
  }

  /** The second child held still during its sibling's turn, then took its add. */
  lemma SameThenAdd(sA: seq<int>, zA: seq<int>, sB: seq<int>, zB: seq<int>, sC: seq<int>, zC: seq<int>,
                    N: nat, c: nat, l: nat, r: nat, ql: nat, qr: nat, val: int)
    requires Same(sA, zA, sB, zB, N, c, l, r) && Added(sB, zB, sC, zC, N, c, l, r, ql, qr, val)
    ensures AddOf(sA, zA, sC, zC, N, c, l, r, ql, qr, val)
  {
    assert Sealed(c, 0);
    forall k | Sealed(c, k)
      ensures Eval(sC, zC, N, c, l, r, 0) == AddOn(Eval(sA, zA, N, c, l, r, 0), l, ql, qr, val)
    {
    }
  }

  lemma AddOfOpen(s: seq<int>, z: seq<int>, s': seq<int>, z': seq<int>, N: nat, c: nat, l: nat, r: nat, ql: nat, qr: nat, val: int)
    requires AddOf(s, z, s', z', N, c, l, r, ql, qr, val)
    ensures |s'| == 2 * N && |z'| == 2 * N && Shape(N, c, l, r) && Ok(s', z', N, c, l, r)
    ensures Eval(s', z', N, c, l, r, 0) == AddOn(Eval(s, z, N, c, l, r, 0), l, ql, qr, val)
  {
    assert Sealed(c, 0);
  }

  /** The end of `update` on an inner node: `seg[node] = seg[2 node] + seg[2 node + 1]`. */
  lemma AddJoinStep(s0: seq<int>, z0: seq<int>, s1: seq<int>, z1: seq<int>, s2: seq<int>, z2: seq<int>,
                    s3: seq<int>, z3: seq<int>, s4: seq<int>, z4: seq<int>,
                    N: nat, n: nat, l: nat, mid: nat, r: nat, ql: nat, qr: nat, val: int)
    requires Pushed(s0, z0, s1, z1, N, n, l, r) && mid == (l + r) / 2
    requires AddStaged(s1, z1, s2, z2, N, n, 2 * n, l, mid, 2 * n + 1, mid + 1, r, ql, qr, val)
    requires AddStaged(s2, z2, s3, z3, N, n, 2 * n + 1, mid + 1, r, 2 * n, l, mid, ql, qr, val)
    requires s4 == s3[n := s3[2 * n] + s3[2 * n + 1]] && z4 == z3
    ensures Added(s0, z0, s4, z4, N, n, l, r, ql, qr, val)
  {
    AddChildren(s1, z1, s2, z2, s3, z3, s4, z4, N, n, l, mid, r, ql, qr, val);
    AddAfterPush(s0, z0, s1, z1, s4, z4, N, n, l, r, ql, qr, val);
  }

  /** ... from the snapshot taken after `push`. */
  lemma AddChildren(s1: seq<int>, z1: seq<int>, s2: seq<int>, z2: seq<int>, s3: seq<int>, z3: seq<int>, s4: seq<int>, z4: seq<int>,
                    N: nat, n: nat, l: nat, mid: nat, r: nat, ql: nat, qr: nat, val: int)
    requires Inv(s1, z1, N, n, l, r) && l < r && z1[n] == 0 && mid == (l + r) / 2
    requires AddStaged(s1, z1, s2, z2, N, n, 2 * n, l, mid, 2 * n + 1, mid + 1, r, ql, qr, val)
    requires AddStaged(s2, z2, s3, z3, N, n, 2 * n + 1, mid + 1, r, 2 * n, l, mid, ql, qr, val)
    requires s4 == s3[n := s3[2 * n] + s3[2 * n + 1]] && z4 == z3
    ensures Added(s1, z1, s4, z4, N, n, l, r, ql, qr, val)
  {
    ChildrenAdded(s1, z1, s2, z2, s3, z3, N, n, l, mid, r, ql, qr, val);
    JoinAdded(s1, z1, s3, z3, s4, z4, N, n, l, mid, r, ql, qr, val);
  }

  /** After both turns, each child holds its own add, and the slot of `n` and the rest are as after `push`. */
  lemma ChildrenAdded(s1: seq<int>, z1: seq<int>, s2: seq<int>, z2: seq<int>, s3: seq<int>, z3: seq<int>,
                      N: nat, n: nat, l: nat, mid: nat, r: nat, ql: nat, qr: nat, val: int)
    requires AddStaged(s1, z1, s2, z2, N, n, 2 * n, l, mid, 2 * n + 1, mid + 1, r, ql, qr, val)
    requires AddStaged(s2, z2, s3, z3, N, n, 2 * n + 1, mid + 1, r, 2 * n, l, mid, ql, qr, val)
    ensures AddOf(s1, z1, s3, z3, N, 2 * n, l, mid, ql, qr, val)
    ensures AddOf(s1, z1, s3, z3, N, 2 * n + 1, mid + 1, r, ql, qr, val)
    ensures s3[n] == s1[n] && z3[n] == z1[n] && SameOutside(s1, z1, s3, z3, n)
  {
    AddThenSame(s1, z1, s2, z2, s3, z3, N, 2 * n, l, mid, ql, qr, val);
    SameThenAdd(s1, z1, s2, z2, s3, z3, N, 2 * n + 1, mid + 1, r, ql, qr, val);
    SlotsOpen(s1, z1, s2, z2, s3, z3, n);
  }

  /** `seg[n] = seg[2 n] + seg[2 n + 1]` turns the children's adds into the add on `n`. */
  lemma JoinAdded(s1: seq<int>, z1: seq<int>, s3: seq<int>, z3: seq<int>, s4: seq<int>, z4: seq<int>,
                  N: nat, n: nat, l: nat, mid: nat, r: nat, ql: nat, qr: nat, val: int)
    requires Inv(s1, z1, N, n, l, r) && l < r && z1[n] == 0 && mid == (l + r) / 2
    requires AddOf(s1, z1, s3, z3, N, 2 * n, l, mid, ql, qr, val)
    requires AddOf(s1, z1, s3, z3, N, 2 * n + 1, mid + 1, r, ql, qr, val)
    requires z3[n] == z1[n] && SameOutside(s1, z1, s3, z3, n)
    requires s4 == s3[n := s3[2 * n] + s3[2 * n + 1]] && z4 == z3
    ensures Added(s1, z1, s4, z4, N, n, l, r, ql, qr, val)
  {
    ShapeChildren(N, n, l, r);
    AddOfOpen(s1, z1, s3, z3, N, 2 * n, l, mid, ql, qr, val);
    AddOfOpen(s1, z1, s3, z3, N, 2 * n + 1, mid + 1, r, ql, qr, val);
    AddJoin(s1, z1, s3, z3, s4, z4, N, n, l, mid, r, ql, qr, val);
    SealAdded(s1, z1, s4, z4, N, n, l, r, ql, qr, val);
  }

  /** `push` changed no element, so an add counted from after it counts from before it. */
  lemma AddAfterPush(s0: seq<int>, z0: seq<int>, s1: seq<int>, z1: seq<int>, s4: seq<int>, z4: seq<int>,
                     N: nat, n: nat, l: nat, r: nat, ql: nat, qr: nat, val: int)
    requires Pushed(s0, z0, s1, z1, N, n, l, r) && Added(s1, z1, s4, z4, N, n, l, r, ql, qr, val)
    ensures Added(s0, z0, s4, z4, N, n, l, r, ql, qr, val)
  {
    assert Sealed(n, 0);
    OutsideTrans(s0, z0, s1, z1, s4, z4, n);
    forall k | Sealed(n, k)
      ensures SameOutside(s0, z0, s4, z4, n) && Eval(s4, z4, N, n, l, r, 0) == AddOn(Eval(s0, z0, N, n, l, r, 0), l, ql, qr, val)
    {
    }
  }

  /** `query_impl` on a node inside `[ql, qr]` answers its stored sum and changes nothing. */
  lemma SumCoveredStep(s: seq<int>, z: seq<int>, N: nat, n: nat, l: nat, r: nat, ql: nat, qr: nat)
    requires Inv(s, z, N, n, l, r) && ql <= l && r <= qr
    ensures Summed(s, z, s, z, N, n, l, r, ql, qr, s[n])
  {
    InvOpen(s, z, N, n, l, r);
    QueryCovered(s, z, N, n, l, r, ql, qr);
    SealSummed(s, z, s, z, N, n, l, r, ql, qr, s[n]);
  }

  /** One child's part of `query_impl`: the recursive call when `hit`, otherwise zero for a child the query misses. */
  lemma SumStep(sA: seq<int>, zA: seq<int>, sB: seq<int>, zB: seq<int>, N: nat, n: nat,
                c: nat, cl: nat, cr: nat, o: nat, ol: nat, or: nat, ql: nat, qr: nat, part: int, hit: bool)
    requires |sA| == 2 * N && |zA| == 2 * N && |sB| == 2 * N && |zB| == 2 * N && 1 <= n < 2 * N
    requires (c == 2 * n && o == 2 * n + 1) || (c == 2 * n + 1 && o == 2 * n)
    requires Inv(sA, zA, N, c, cl, cr) && Inv(sA, zA, N, o, ol, or)
    requires hit ==> Summed(sA, zA, sB, zB, N, c, cl, cr, ql, qr, part)
    requires !hit ==> sB == sA && zB == zA && part == 0 && (cr < ql || qr < cl)
    ensures SumStaged(sA, zA, sB, zB, N, n, c, cl, cr, o, ol, or, ql, qr, part)
  {
    assert Sealed(c, 0);
    InvOpen(sA, zA, N, o, ol, or);
    SumStage(sA, zA, sB, zB, N, n, c, cl, cr, o, ol, or, ql, qr, part, hit);
    if !hit {
      assert InSub(c, c);
    }
    SealSummed(sA, zA, sB, zB, N, c, cl, cr, ql, qr, part);
    SealInv(sB, zB, N, o, ol, or);
    SealSame(sA, zA, sB, zB, N, o, ol, or);
    SealSlot(sA, zA, sB, zB, n);
  }

  /** The first child's sum survives its sibling's turn. */
  lemma SumThenSame(sA: seq<int>, zA: seq<int>, sB: seq<int>, zB: seq<int>, sC: seq<int>, zC: seq<int>,
                    N: nat, c: nat, l: nat, r: nat, ql: nat, qr: nat, part: int)
    requires Summed(sA, zA, sB, zB, N, c, l, r, ql, qr, part) && Same(sB, zB, sC, zC, N, c, l, r) && Inv(sC, zC, N, c, l, r)
    ensures SumOf(sA, zA, sC, zC, N, c, l, r, ql, qr, part)
  {
    assert Sealed(c, 0);
    forall k | Sealed(c, k)
      ensures Eval(sC, zC, N, c, l, r, 0) == Eval(sA, zA, N, c, l, r, 0) && part == Sum(Mask(Eval(sA, zA, N, c, l, r, 0), l, ql, qr))
    {
    }
  }

  /** The second child held still during its sibling's turn, then answered its part. */
  lemma SameThenSum(sA: seq<int>, zA: seq<int>, sB: seq<int>, zB: seq<int>, sC: seq<int>, zC: seq<int>,
                    N: nat, c: nat, l: nat, r: nat, ql: nat, qr: nat, part: int)
    requires Same(sA, zA, sB, zB, N, c, l, r) && Summed(sB, zB, sC, zC, N, c, l, r, ql, qr, part)
    ensures SumOf(sA, zA, sC, zC, N, c, l, r, ql, qr, part)
  {
    assert Sealed(c, 0);
    forall k | Sealed(c, k)
      ensures Eval(sC, zC, N, c, l, r, 0) == Eval(sA, zA, N, c, l, r, 0) && part == Sum(Mask(Eval(sA, zA, N, c, l, r, 0), l, ql, qr))
    {
    }
  }

  lemma SumOfOpen(s: seq<int>, z: seq<int>, s': seq<int>, z': seq<int>, N: nat, c: nat, l: nat, r: nat, ql: nat, qr: nat, part: int)
    requires SumOf(s, z, s', z', N, c, l, r, ql, qr, part)
    ensures |s'| == 2 * N && |z'| == 2 * N && Shape(N, c, l, r) && Ok(s', z', N, c, l, r)
    ensures Eval(s', z', N, c, l, r, 0) == Eval(s, z, N, c, l, r, 0) && part == Sum(Mask(Eval(s, z, N, c, l, r, 0), l, ql, qr))
  {
    assert Sealed(c, 0);
  }

  /** The end of `query_impl` on an inner node: `res` is the two children's parts added. */
  lemma SumJoinStep(s0: seq<int>, z0: seq<int>, s1: seq<int>, z1: seq<int>, s2: seq<int>, z2: seq<int>,
                    s3: seq<int>, z3: seq<int>, N: nat, n: nat, l: nat, mid: nat, r: nat, ql: nat, qr: nat, a: int, b: int)
    requires Pushed(s0, z0, s1, z1, N, n, l, r) && mid == (l + r) / 2
    requires SumStaged(s1, z1, s2, z2, N, n, 2 * n, l, mid, 2 * n + 1, mid + 1, r, ql, qr, a)
    requires SumStaged(s2, z2, s3, z3, N, n, 2 * n + 1, mid + 1, r, 2 * n, l, mid, ql, qr, b)
    ensures Summed(s0, z0, s3, z3, N, n, l, r, ql, qr, a + b)
  {
    SumChildren(s1, z1, s2, z2, s3, z3, N, n, l, mid, r, ql, qr, a, b);
    SumAfterPush(s0, z0, s1, z1, s3, z3, N, n, l, r, ql, qr, a + b);
  }

  /** ... from the snapshot taken after `push`. */
  lemma SumChildren(s1: seq<int>, z1: seq<int>, s2: seq<int>, z2: seq<int>, s3: seq<int>, z3: seq<int>,
                    N: nat, n: nat, l: nat, mid: nat, r: nat, ql: nat, qr: nat, a: int, b: int)
    requires Inv(s1, z1, N, n, l, r) && l < r && z1[n] == 0 && mid == (l + r) / 2
    requires SumStaged(s1, z1, s2, z2, N, n, 2 * n, l, mid, 2 * n + 1, mid + 1, r, ql, qr, a)
    requires SumStaged(s2, z2, s3, z3, N, n, 2 * n + 1, mid + 1, r, 2 * n, l, mid, ql, qr, b)
    ensures Summed(s1, z1, s3, z3, N, n, l, r, ql, qr, a + b)
  {
    ChildrenSummed(s1, z1, s2, z2, s3, z3, N, n, l, mid, r, ql, qr, a, b);
    JoinSummed(s1, z1, s3, z3, N, n, l, mid, r, ql, qr, a, b);
  }

  /** After both turns, each child keeps its elements and has answered its part; the slot of `n` and the rest are as after `push`. */
  lemma ChildrenSummed(s1: seq<int>, z1: seq<int>, s2: seq<int>, z2: seq<int>, s3: seq<int>, z3: seq<int>,
                       N: nat, n: nat, l: nat, mid: nat, r: nat, ql: nat, qr: nat, a: int, b: int)
    requires SumStaged(s1, z1, s2, z2, N, n, 2 * n, l, mid, 2 * n + 1, mid + 1, r, ql, qr, a)
    requires SumStaged(s2, z2, s3, z3, N, n, 2 * n + 1, mid + 1, r, 2 * n, l, mid, ql, qr, b)
    ensures SumOf(s1, z1, s3, z3, N, 2 * n, l, mid, ql, qr, a)
    ensures SumOf(s1, z1, s3, z3, N, 2 * n + 1, mid + 1, r, ql, qr, b)
    ensures s3[n] == s1[n] && z3[n] == z1[n] && SameOutside(s1, z1, s3, z3, n)
  {
    SumThenSame(s1, z1, s2, z2, s3, z3, N, 2 * n, l, mid, ql, qr, a);
    SameThenSum(s1, z1, s2, z2, s3, z3, N, 2 * n + 1, mid + 1, r, ql, qr, b);
    SlotsOpen(s1, z1, s2, z2, s3, z3, n);
  }

  /** The children's parts add up to the answer for `n`, whose stored sum they left alone. */
  lemma JoinSummed(s1: seq<int>, z1: seq<int>, s3: seq<int>, z3: seq<int>,
                   N: nat, n: nat, l: nat, mid: nat, r: nat, ql: nat, qr: nat, a: int, b: int)
    requires Inv(s1, z1, N, n, l, r) && l < r && z1[n] == 0 && mid == (l + r) / 2
    requires SumOf(s1, z1, s3, z3, N, 2 * n, l, mid, ql, qr, a)
    requires SumOf(s1, z1, s3, z3, N, 2 * n + 1, mid + 1, r, ql, qr, b)
    requires s3[n] == s1[n] && z3[n] == z1[n] && SameOutside(s1, z1, s3, z3, n)
    ensures Summed(s1, z1, s3, z3, N, n, l, r, ql, qr, a + b)
  {
    ShapeChildren(N, n, l, r);
    SumOfOpen(s1, z1, s3, z3, N, 2 * n, l, mid, ql, qr, a);
    SumOfOpen(s1, z1, s3, z3, N, 2 * n + 1, mid + 1, r, ql, qr, b);
    InvOpen(s1, z1, N, n, l, r);
    SumJoin(s1, z1, s3, z3, N, n, l, mid, r, ql, qr, a, b);
    SealSummed(s1, z1, s3, z3, N, n, l, r, ql, qr, a + b);
  }

  /** `push` changed no element, so a sum counted from after it counts from before it. */
  lemma SumAfterPush(s0: seq<int>, z0: seq<int>, s1: seq<int>, z1: seq<int>, s3: seq<int>, z3: seq<int>,
                     N: nat, n: nat, l: nat, r: nat, ql: nat, qr: nat, res: int)
    requires Pushed(s0, z0, s1, z1, N, n, l, r) && Summed(s1, z1, s3, z3, N, n, l, r, ql, qr, res)
    ensures Summed(s0, z0, s3, z3, N, n, l, r, ql, qr, res)
  {
    assert Sealed(n, 0);
    OutsideTrans(s0, z0, s1, z1, s3, z3, n);
    forall k | Sealed(n, k)
      ensures SameOutside(s0, z0, s3, z3, n) && Eval(s3, z3, N, n, l, r, 0) == Eval(s0, z0, N, n, l, r, 0) &&
        res == Sum(Mask(Eval(s0, z0, N, n, l, r, 0), l, ql, qr))
    {
    }
  }

  /** What `Added` says, unsealed. */
  lemma AddedOpen(s: seq<int>, z: seq<int>, s': seq<int>, z': seq<int>, N: nat, n: nat, l: nat, r: nat, ql: nat, qr: nat, val: int)
    requires Added(s, z, s', z', N, n, l, r, ql, qr, val)
    ensures Eval(s', z', N, n, l, r, 0) == AddOn(Eval(s, z, N, n, l, r, 0), l, ql, qr, val)
  {
    assert Sealed(n, 0);
  }

  /** What `Summed` says, unsealed. */
  lemma SummedOpen(s: seq<int>, z: seq<int>, s': seq<int>, z': seq<int>, N: nat, n: nat, l: nat, r: nat, ql: nat, qr: nat, res: int)
    requires Summed(s, z, s', z', N, n, l, r, ql, qr, res)
    ensures Eval(s', z', N, n, l, r, 0) == Eval(s, z, N, n, l, r, 0)
    ensures res == Sum(Mask(Eval(s, z, N, n, l, r, 0), l, ql, qr))
  {
    assert Sealed(n, 0);
  }

  // ---------------------------------------------------------------------
  // The tree

  /** `FixedLazySegmentTree<T, N>` with `T` as unbounded integers. */
  class FixedLazySegmentTree {
    const N: nat
    /** `seg_`: node sums. */
    const seg: array<int>
    /** `lazy_`: adds still owed to each node's children. */
    const lazy: array<int>

    ghost predicate Valid()
      reads this, seg, lazy
    {
      N > 0 && IsPowerOfTwo(N) && seg.Length == 2 * N && lazy.Length == 2 * N && seg != lazy &&
      Inv(seg[..], lazy[..], N, 1, 0, N - 1)
    }

    /** The `N` elements the tree stands for. */
    ghost function Values(): (v: seq<int>)
      requires Valid()
      reads this, seg, lazy
      ensures |v| == N
    {
      EvalLen(seg[..], lazy[..], N, 1, 0, N - 1, 0);
      Eval(seg[..], lazy[..], N, 1, 0, N - 1, 0)
    }

    /** Both arrays zero-filled: every element is zero. */
    constructor(N: nat)
      requires N > 0 && IsPowerOfTwo(N)
      ensures Valid() && this.N == N && Values() == seq(N, _ => 0)
      ensures fresh(seg) && fresh(lazy)
    {
      this.N := N;
      seg := new int[2 * N](_ => 0);
      lazy := new int[2 * N](_ => 0);
      new;
      ShapeRoot(N);
      ZeroTree(seg[..], lazy[..], N, 1, 0, N - 1);
      SealInv(seg[..], lazy[..], N, 1, 0, N - 1);
    }

    /** `apply`: node `node`, of width `len`, takes `add` on every element. */
    method Apply(node: nat, len: nat, add: int)
      requires node < seg.Length && node < lazy.Length && seg != lazy
      modifies seg, lazy
      ensures seg[..] == old(seg[..])[node := old(seg[node]) + add * len]
      ensures lazy[..] == old(lazy[..])[node := old(lazy[node]) + add]
    {
      seg[node] := seg[node] + add * len;
      lazy[node] := lazy[node] + add;
    }

    /** `push`: hand the pending add of inner node `node` (width `len`, range `[l, r]`) down to both children. */
    method Push(node: nat, len: nat, ghost l: nat, ghost r: nat)
      requires seg.Length == 2 * N && lazy.Length == 2 * N && seg != lazy
      requires Inv(seg[..], lazy[..], N, node, l, r) && l < r && len == r - l + 1
      modifies seg, lazy
      ensures 2 * node + 1 < 2 * N
      ensures seg[..] == old(seg[..])[2 * node := old(seg[2 * node]) + old(lazy[node]) * (len / 2)]
                                     [2 * node + 1 := old(seg[2 * node + 1]) + old(lazy[node]) * (len / 2)]
      ensures lazy[..] == old(lazy[..])[2 * node := old(lazy[2 * node]) + old(lazy[node])]
                                       [2 * node + 1 := old(lazy[2 * node + 1]) + old(lazy[node])][node := 0]
      ensures Pushed(old(seg[..]), old(lazy[..]), seg[..], lazy[..], N, node, l, r)
    {
      ghost var s, z := seg[..], lazy[..];
      ShapeChildren(N, node, l, r);
      if lazy[node] != 0 {
        var half := len / 2;
        Apply(2 * node, half, lazy[node]);
        Apply(2 * node + 1, half, lazy[node]);
        lazy[node] := 0;
      } else {
        assert s[2 * node := s[2 * node] + 0 * (len / 2)][2 * node + 1 := s[2 * node + 1] + 0 * (len / 2)] == s;
        assert z[2 * node := z[2 * node] + 0][2 * node + 1 := z[2 * node + 1] + 0][node := 0] == z;
      }
      PushStep(s, z, seg[..], lazy[..], N, node, l, r, len / 2);
    }

    /** `update`: add `val` to the elements of `[ql, qr]` under node `node`, which covers `[l, r]` and meets `[ql, qr]`. */
    method Update(node: nat, l: nat, r: nat, ql: nat, qr: nat, val: int)
      requires seg.Length == 2 * N && lazy.Length == 2 * N && seg != lazy
      requires Inv(seg[..], lazy[..], N, node, l, r) && ql <= r && l <= qr
      modifies seg, lazy
      ensures Added(old(seg[..]), old(lazy[..]), seg[..], lazy[..], N, node, l, r, ql, qr, val)
      decreases r - l, 0
    {
      if ql <= l && r <= qr {
        ghost var s, z := seg[..], lazy[..];
        Apply(node, r - l + 1, val);
        CoveredStep(s, z, N, node, l, r, r - l + 1, ql, qr, val);
        return;
      }
      ghost var s0, z0 := seg[..], lazy[..];
      Push(node, r - l + 1, l, r);
      ghost var s1, z1 := seg[..], lazy[..];
      var mid := (l + r) / 2;
      SplitStep(s0, z0, s1, z1, N, node, l, mid, r);
      UpdateChild(node, 2 * node, l, mid, 2 * node + 1, mid + 1, r, ql, qr, val, ql <= mid);
      ghost var s2, z2 := seg[..], lazy[..];
      UpdateChild(node, 2 * node + 1, mid + 1, r, 2 * node, l, mid, ql, qr, val, qr > mid);
      ghost var s3, z3 := seg[..], lazy[..];
      seg[node] := seg[2 * node] + seg[2 * node + 1];
      AddJoinStep(s0, z0, s1, z1, s2, z2, s3, z3, seg[..], lazy[..], N, node, l, mid, r, ql, qr, val);
    }

    /** One child's turn in `update`: recurse into child `c` (range `[cl, cr]`) when `hit`; its sibling `o` and slot `n` stay put. */
    method UpdateChild(n: nat, c: nat, cl: nat, cr: nat, o: nat, ol: nat, or: nat, ql: nat, qr: nat, val: int, hit: bool)
      requires seg.Length == 2 * N && lazy.Length == 2 * N && seg != lazy && 1 <= n < 2 * N
      requires (c == 2 * n && o == 2 * n + 1) || (c == 2 * n + 1 && o == 2 * n)
      requires Inv(seg[..], lazy[..], N, c, cl, cr) && Inv(seg[..], lazy[..], N, o, ol, or)
      requires hit ==> ql <= cr && cl <= qr
      requires !hit ==> cr < ql || qr < cl
      modifies seg, lazy
      ensures AddStaged(old(seg[..]), old(lazy[..]), seg[..], lazy[..], N, n, c, cl, cr, o, ol, or, ql, qr, val)
      decreases cr - cl, 1
    {
      ghost var s, z := seg[..], lazy[..];
      if hit {
        Update(c, cl, cr, ql, qr, val);
      }
      AddStep(s, z, seg[..], lazy[..], N, n, c, cl, cr, o, ol, or, ql, qr, val, hit);
    }

    /** `query_impl`: the sum of the elements of `[ql, qr]` under node `node`, which covers `[l, r]` and meets `[ql, qr]`. */
    method QueryImpl(node: nat, l: nat, r: nat, ql: nat, qr: nat) returns (res: int)
      requires seg.Length == 2 * N && lazy.Length == 2 * N && seg != lazy
      requires Inv(seg[..], lazy[..], N, node, l, r) && ql <= r && l <= qr
      modifies seg, lazy
      ensures Summed(old(seg[..]), old(lazy[..]), seg[..], lazy[..], N, node, l, r, ql, qr, res)
      decreases r - l, 0
    {
      if ql <= l && r <= qr {
        SumCoveredStep(seg[..], lazy[..], N, node, l, r, ql, qr);
        return seg[node];
      }
      ghost var s0, z0 := seg[..], lazy[..];
      Push(node, r - l + 1, l, r);
      ghost var s1, z1 := seg[..], lazy[..];
      var mid := (l + r) / 2;
      SplitStep(s0, z0, s1, z1, N, node, l, mid, r);
      var a := QueryChild(node, 2 * node, l, mid, 2 * node + 1, mid + 1, r, ql, qr, ql <= mid);
      ghost var s2, z2 := seg[..], lazy[..];
      var b := QueryChild(node, 2 * node + 1, mid + 1, r, 2 * node, l, mid, ql, qr, qr > mid);
      ghost var s3, z3 := seg[..], lazy[..];
      res := a + b;
      SumJoinStep(s0, z0, s1, z1, s2, z2, s3, z3, N, node, l, mid, r, ql, qr, a, b);
    }

    /** One child's turn in `query_impl`: the child's answer when `hit`, otherwise 0; its sibling `o` and slot `n` stay put. */
    method QueryChild(n: nat, c: nat, cl: nat, cr: nat, o: nat, ol: nat, or: nat, ql: nat, qr: nat, hit: bool) returns (part: int)
      requires seg.Length == 2 * N && lazy.Length == 2 * N && seg != lazy && 1 <= n < 2 * N
      requires (c == 2 * n && o == 2 * n + 1) || (c == 2 * n + 1 && o == 2 * n)
      requires Inv(seg[..], lazy[..], N, c, cl, cr) && Inv(seg[..], lazy[..], N, o, ol, or)
      requires hit ==> ql <= cr && cl <= qr
      requires !hit ==> cr < ql || qr < cl
      modifies seg, lazy
      ensures SumStaged(old(seg[..]), old(lazy[..]), seg[..], lazy[..], N, n, c, cl, cr, o, ol, or, ql, qr, part)
      decreases cr - cl, 1
    {
      ghost var s, z := seg[..], lazy[..];
      part := 0;
      if hit {
        part := QueryImpl(c, cl, cr, ql, qr);
      }
      SumStep(s, z, seg[..], lazy[..], N, n, c, cl, cr, o, ol, or, ql, qr, part, hit);
    }

    /** `range_add`: add `val` to every element of `[l, r]`. */
    method RangeAdd(l: nat, r: nat, val: int)
      requires Valid() && l <= r < N
      modifies seg, lazy
      ensures Valid() && Values() == AddOn(old(Values()), 0, l, r, val)
    {
      ghost var s, z := seg[..], lazy[..];
      Update(1, 0, N - 1, l, r, val);
      AddedOpen(s, z, seg[..], lazy[..], N, 1, 0, N - 1, l, r, val);
    }

    /** `range_sum`: the sum of the elements of `[l, r]`; the elements do not change. */
    method RangeSum(l: nat, r: nat) returns (res: int)
      requires Valid() && l <= r < N
      modifies seg, lazy
      ensures Valid() && Values() == old(Values()) && res == Sum(Values()[l..r + 1])
    {
      ghost var s, z := seg[..], lazy[..];
      ghost var v := Values();
      res := QueryImpl(1, 0, N - 1, l, r);
      SummedOpen(s, z, seg[..], lazy[..], N, 1, 0, N - 1, l, r, res);
      MaskSlice(v, l, r);
    }
  }
}
