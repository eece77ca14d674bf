// Shared vocabulary of the model: optional values, unsigned 64-bit words and
// finite sums over maps.

module Common {

  datatype Option<T> = None | Some(value: T)

  // The solver expands an invariant wherever its term occurs, and in methods
  // whose heaps change between calls that expansion costs far more than the
  // proofs themselves. Such an invariant of `x` is stated as
  // `forall k {:trigger Sealed(x, k)} :: Sealed(x, k) ==> Body(x)`, whose body
  // the solver only sees where a `Sealed(x, _)` term exists: inside the
  // lemmas that open and close it.
  function Sealed<T>(x: T, k: int): bool { true }

  const U64_MOD: int := 0x1_0000_0000_0000_0000

  /** The values of a C++ `uint64_t`. */
  type U64 = x: int | 0 <= x < U64_MOD

  /** `a - b` on `uint64_t`: wraps around modulo 2^64 when `b > a`. */
  function Sub64(a: U64, b: U64): (r: U64)
    ensures (r + b) % U64_MOD == a
    ensures b <= a ==> r == a - b
    ensures b > a ==> r > a
  {
    if b <= a then a - b else a - b + U64_MOD
  }

  /** `a + b` on `uint64_t`. */
  function Add64(a: U64, b: U64): (r: U64)
    ensures a + b < U64_MOD ==> r == a + b
    ensures a + b >= U64_MOD ==> r == a + b - U64_MOD
  {
    (a + b) % U64_MOD
  }

  /** Reducing a partial sum modulo 2^64 first does not change the wrapped total. */
  lemma ModAdd(x: int, b: int)
    ensures (x % U64_MOD + b) % U64_MOD == (x + b) % U64_MOD
  {
    var q := x / U64_MOD;
    assert x == q * U64_MOD + x % U64_MOD;
  }

  function Min(a: int, b: int): (r: int)
    ensures r <= a && r <= b && (r == a || r == b)
  {
    if a <= b then a else b
  }

  /** A fixed element of a non-empty set, so that folds over sets and maps are functions. */
  ghost function Pick<K>(s: set<K>): (k: K)
    requires s != {}
    ensures k in s
  {
    var k :| k in s; k
  }

  /** Total length of the sequences stored in a map. */
  ghost function SumSizes<K, V>(m: map<K, seq<V>>): (n: nat)
    decreases |m.Keys|
  {
    if m.Keys == {} then 0
    else
      var k := Pick(m.Keys);
      |m[k]| + SumSizes(m - {k})
  }

  /** SumSizes does not depend on which key Pick chooses first. */
  lemma {:induction false} SumSizesRemove<K, V>(m: map<K, seq<V>>, k: K)
    requires k in m
    ensures SumSizes(m) == |m[k]| + SumSizes(m - {k})
    decreases |m.Keys|
  {
    var p := Pick(m.Keys);
    if p != k {
      var m1 := m - {p};
      var m2 := m - {k};
      assert k in m1.Keys && |m1.Keys| < |m.Keys| by {
        assert m1.Keys == m.Keys - {p};
      }
      assert p in m2.Keys && |m2.Keys| < |m.Keys| by {
        assert m2.Keys == m.Keys - {k};
      }
      SumSizesRemove(m1, k);
      SumSizesRemove(m2, p);
      assert m1 - {k} == m2 - {p};
    }
  }

  /** Replacing the sequence at one key changes the total by the difference in length. */
  lemma SumSizesUpdate<K, V>(m: map<K, seq<V>>, k: K, v: seq<V>)
    ensures k in m ==> SumSizes(m[k := v]) == SumSizes(m) - |m[k]| + |v|
    ensures k !in m ==> SumSizes(m[k := v]) == SumSizes(m) + |v|
  {
    var m' := m[k := v];
    SumSizesRemove(m', k);
    assert m' - {k} == m - {k};
    if k in m {
      SumSizesRemove(m, k);
    } else {
      assert m - {k} == m;
    }
  }

  /** Every sequence of the map contributes its length to the total. */
  lemma SumSizesAtLeast<K, V>(m: map<K, seq<V>>, k: K)
    requires k in m
    ensures |m[k]| <= SumSizes(m)
  {
    SumSizesRemove(m, k);
  }

  /** The total is zero exactly when every stored sequence is empty. */
  lemma {:induction false} SumSizesZero<K, V>(m: map<K, seq<V>>)
    ensures SumSizes(m) == 0 <==> forall k :: k in m ==> m[k] == []
    decreases |m.Keys|
  {
    if m.Keys != {} {
      var p := Pick(m.Keys);
      SumSizesZero(m - {p});
      if SumSizes(m) == 0 {
        forall k | k in m ensures m[k] == [] {
          if k != p { assert k in m - {p}; }
        }
      }
    }
  }

  /** The highest price of a non-empty set of price levels. */
  ghost function MaxPrice(keys: set<int>): (p: int)
    requires keys != {}
    ensures p in keys && forall q :: q in keys ==> q <= p
  {
    MaxExists(keys);
    var p :| p in keys && forall q :: q in keys ==> q <= p; p
  }

  /** The lowest price of a non-empty set of price levels. */
  ghost function MinPrice(keys: set<int>): (p: int)
    requires keys != {}
    ensures p in keys && forall q :: q in keys ==> p <= q
  {
    MinExists(keys);
    var p :| p in keys && forall q :: q in keys ==> p <= q; p
  }

  lemma {:induction false} MaxExists(keys: set<int>)
    requires keys != {}
    ensures exists p :: p in keys && forall q :: q in keys ==> q <= p
    decreases |keys|
  {
    var x := Pick(keys);
    if keys != {x} {
      var rest := keys - {x};
      MaxExists(rest);
      var m :| m in rest && forall q :: q in rest ==> q <= m;
      var best := if x <= m then m else x;
      assert forall q :: q in keys ==> q <= best by {
        forall q | q in keys ensures q <= best {
          if q != x { assert q in rest; }
        }
      }
    }
  }

  lemma {:induction false} MinExists(keys: set<int>)
    requires keys != {}
    ensures exists p :: p in keys && forall q :: q in keys ==> p <= q
    decreases |keys|
  {
    var x := Pick(keys);
    if keys != {x} {
      var rest := keys - {x};
      MinExists(rest);
      var m :| m in rest && forall q :: q in rest ==> m <= q;
      var best := if x <= m then x else m;
      assert forall q :: q in keys ==> best <= q by {
        forall q | q in keys ensures best <= q {
          if q != x { assert q in rest; }
        }
      }
    }
  }

  // ---------------------------------------------------------------------
  // Positions in a ring of `c` slots

  /** `n` is a power of two (the ring buffers' capacities). */
  predicate IsPowerOfTwo(n: nat)
    decreases n
  {
    n == 1 || (n > 1 && n % 2 == 0 && IsPowerOfTwo(n / 2))
  }

  /** A multiple of a positive `c` is not strictly between 0 and `c`. */
  lemma MultipleGap(c: int, k: int)
    requires c > 0
    ensures c * k <= 0 || c * k >= c
  {
    if k <= 0 {
      assert c * k <= 0;
    } else {
      assert c * k == c * (k - 1) + c;
      assert c * (k - 1) >= 0;
    }
  }

  lemma DivMod(p: int, c: int)
    requires c > 0
    ensures p == c * (p / c) + p % c && 0 <= p % c < c
  {
  }

  /** Positions less than a lap apart use different slots. */
  lemma ResidueDistinct(p: int, q: int, c: int)
    requires c > 0 && p < q < p + c
    ensures p % c != q % c
  {
    DivMod(p, c);
    DivMod(q, c);
    var k := q / c - p / c;
    assert c * k == c * (q / c) - c * (p / c);
    MultipleGap(c, k);
  }

  /** Positions exactly a lap apart use the same slot. */
  lemma ResidueLap(p: nat, c: nat)
    requires c > 0
    ensures (p + c) % c == p % c
  {
    DivMod(p, c);
    DivMod(p + c, c);
    var k := (p + c) / c - p / c - 1;
    assert c * k == c * ((p + c) / c) - c * (p / c) - c;
    assert c * k == (p % c) - (p + c) % c;
    MultipleGap(c, k);
    MultipleGap(c, -k);
  }

  // ---------------------------------------------------------------------
  // Sums of integer sequences

  /** The sum of the elements, added from the front. */
  function Sum(s: seq<int>): int
    decreases |s|
  {
    if s == [] then 0 else Sum(s[..|s| - 1]) + s[|s| - 1]
  }

  /** A slice's sum is the sum of any two slices it splits into. */
  lemma {:induction false} SumSplit(s: seq<int>, a: int, b: int, c: int)
    requires 0 <= a <= b <= c <= |s|
    ensures Sum(s[a..c]) == Sum(s[a..b]) + Sum(s[b..c])
    decreases c - b
  {
    if b < c {
      SumSplit(s, a, b, c - 1);
      assert s[a..c][..c - a - 1] == s[a..c - 1];
      assert s[b..c][..c - b - 1] == s[b..c - 1];
    } else {
      assert s[b..c] == [];
    }
  }

  /** A sequence of zeros sums to zero. */
  lemma {:induction false} SumZeros(s: seq<int>)
    requires forall i :: 0 <= i < |s| ==> s[i] == 0
    ensures Sum(s) == 0
    decreases |s|
  {
    if s != [] {
      SumZeros(s[..|s| - 1]);
    }
  }

  /** The sum of a concatenation is the sum of its parts. */
  lemma SumConcat(x: seq<int>, y: seq<int>)
    ensures Sum(x + y) == Sum(x) + Sum(y)
  {
    var s := x + y;
    SumSplit(s, 0, |x|, |s|);
    assert s[0..|s|] == s && s[0..|x|] == x && s[|x|..|s|] == y;
  }
}
