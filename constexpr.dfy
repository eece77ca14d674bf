// The compile-time arithmetic of src/bin/constexpr.cpp: `sq`, the `CClass`
// wrapper with its `operator*`, `cube`, the doubly recursive `fib` with the
// enumerators it fills in, and membership in a `type_list`.
//
// The source evaluates these in constant expressions, where an `int`
// overflow is a compile error; every value it asks for fits in 32 bits, so
// the model computes on unbounded integers. A type is a value of any
// equality type here, and `std::is_same_v` is `==`.

module Constexpr {

  /** `CClass`: one wrapped `int`. */
  datatype CClass = CClass(n: int)

  /** `CClass::operator*`: the product of the wrapped values. */
  function Mul(a: CClass, b: CClass): CClass {
    CClass(a.n * b.n)
  }

  /** `sq`. */
  function Sq(n: int): int {
    n * n
  }

  /** `cube`: `c * c * c`. */
  function Cube(c: CClass): CClass {
    Mul(Mul(c, c), c)
  }

  /** `n` to the power `k`. */
  function Pow(n: int, k: nat): int {
    if k == 0 then 1 else n * Pow(n, k - 1)
  }

  /** The cube wraps the third power, and the cube of a square the sixth. */
  lemma {:induction false} CubeIsThirdPower(k: int)
    ensures Cube(CClass(k)).n == Pow(k, 3)
    ensures Cube(CClass(Sq(k))).n == Pow(k, 6)
  {
    assert Pow(k, 3) == k * (k * k) by {
      assert Pow(k, 1) == k;
      assert Pow(k, 2) == k * k;
    }
    assert Pow(k, 6) == Pow(k, 3) * Pow(k, 3) by {
      PowAdd(k, 3, 3);
    }
    calc {
      Cube(CClass(Sq(k))).n;
      (k * k) * (k * k) * (k * k);
      (k * (k * k)) * (k * (k * k));
    }
  }

  /** Powers add their exponents. */
  lemma {:induction false} PowAdd(n: int, a: nat, b: nat)
    ensures Pow(n, a + b) == Pow(n, a) * Pow(n, b)
    decreases a
  {
    if a > 0 {
      PowAdd(n, a - 1, b);
      assert Pow(n, a + b) == n * Pow(n, a - 1 + b);
    }
  }

  /** The three `static_assert`s: `cube(CClass(sq(2)))` is 64, `cube(CClass(sq(3)))` is 729, `cube(CClass(2))` is 8. */
  lemma StaticAsserts()
    ensures Cube(CClass(Sq(2))).n == 64 && Cube(CClass(Sq(3))).n == 729 && Cube(CClass(2)).n == 8
  {
  }

  /** `fib`: 1 for every `n <= 0`, so the sequence runs 1, 2, 3, 5, … from `n = 0`. */
  function Fib(n: int): nat
    decreases if n < 0 then 0 else n
  {
    if n <= 0 then 1 else Fib(n - 1) + Fib(n - 2)
  }

  /** The usual Fibonacci numbers, 0, 1, 1, 2, 3, 5, …, counted from 0. */
  function Fibonacci(k: nat): nat {
    if k < 2 then k else Fibonacci(k - 1) + Fibonacci(k - 2)
  }

  /** `fib(n)` is the Fibonacci number two places on. */
  lemma {:induction false} FibIsShiftedFibonacci(n: nat)
    ensures Fib(n) == Fibonacci(n + 2)
    decreases n
  {
    if n == 0 {
      assert Fibonacci(2) == Fibonacci(1) + Fibonacci(0);
    } else if n == 1 {
      assert Fibonacci(3) == Fibonacci(2) + Fibonacci(1);
      assert Fib(1) == Fib(0) + Fib(-1);
    } else {
      FibIsShiftedFibonacci(n - 1);
      FibIsShiftedFibonacci(n - 2);
    }
  }

  /** `fib` grows: each value is at least the one before. */
  lemma {:induction false} FibMonotone(n: int)
    ensures Fib(n) <= Fib(n + 1)
  {
    if n >= 0 {
      assert Fib(n + 1) == Fib(n) + Fib(n - 1);
    }
  }

  /** `FIB_ENUM`: `a = fib(20)`, `b = fib(23)`, `c = fib(24)`; all three fit in an `int`. */
  lemma FibEnum()
    ensures Fib(20) == 17711 && Fib(23) == 75025 && Fib(24) == 121393
    ensures Fib(24) < 0x8000_0000
  {
    assert Fib(0) == 1 && Fib(1) == 2;
    assert Fib(2) == 3;
    assert Fib(3) == 5;
    assert Fib(4) == 8;
    assert Fib(5) == 13;
    assert Fib(6) == 21;
    assert Fib(7) == 34;
    assert Fib(8) == 55;
    assert Fib(9) == 89;
    assert Fib(10) == 144;
    assert Fib(11) == 233;
    assert Fib(12) == 377;
    assert Fib(13) == 610;
    assert Fib(14) == 987;
    assert Fib(15) == 1597;
    assert Fib(16) == 2584;
    assert Fib(17) == 4181;
    assert Fib(18) == 6765;
    assert Fib(19) == 10946;
    assert Fib(20) == 17711;
    assert Fib(21) == 28657;
    assert Fib(22) == 46368;
    assert Fib(23) == 75025;
  }

  /** `type_list<Ts...>::has<U>()`: the empty list has nothing; otherwise the head is `U` or the tail has it. */
  function Has<T(==)>(ts: seq<T>, u: T): bool
    decreases |ts|
  {
    if ts == [] then false else ts[0] == u || Has(ts[1..], u)
  }

  /** `has<U>()` holds exactly when `U` is one of the list's types. */
  lemma {:induction false} HasIsMembership<T>(ts: seq<T>, u: T)
    ensures Has(ts, u) <==> u in ts
    decreases |ts|
  {
    if ts != [] {
      HasIsMembership(ts[1..], u);
      assert ts == [ts[0]] + ts[1..];
    }
  }
}
