// The caches and the swap of src/language_practice/tips.hpp.
//
// `DataProcessor` keeps its data fixed and caches its sum in `mutable`
// fields on the first call of `sum()`; `ConfigLoader` builds its contents on
// the first call of `getContents()` and keeps them behind a shared pointer;
// `swap_nothrow` exchanges two objects through references. The `mutable`
// fields are ordinary fields here, which the const member functions modify.

module Tips {
  import Common

  /** `std::accumulate(first, last, init)` over `s`: one addition per element, front to back. */
  method Accumulate(s: seq<int>, init: int) returns (acc: int)
    ensures acc == init + Common.Sum(s)
  {
    acc := init;
    var i := 0;
    while i < |s|
      invariant 0 <= i <= |s|
      invariant acc == init + Common.Sum(s[..i])
    {
      assert s[..i + 1][..i] == s[..i];
      acc := acc + s[i];
      i := i + 1;
    }
    assert s[..|s|] == s;
  }

  class DataProcessor {
    const data: seq<int>
    var cached: bool
    var sumCache: int

    /** Once the flag is set, the cache holds the sum of the data. */
    ghost predicate Valid()
      reads this
    {
      cached ==> sumCache == Common.Sum(data)
    }

    /** Nothing cached yet. */
    constructor (d: seq<int>)
      ensures Valid() && data == d && !cached && sumCache == 0
    {
      data := d;
      cached := false;
      sumCache := 0;
    }

    /** `sum`: the sum of the data, computed on the first call and read from the cache after that. */
    method Sum() returns (r: int)
      requires Valid()
      modifies this
      ensures Valid() && cached && r == Common.Sum(data) && sumCache == r
      ensures old(cached) ==> sumCache == old(sumCache)
    {
      if !cached {
        sumCache := Accumulate(data, 0);
        cached := true;
      }
      r := sumCache;
    }
  }

  /** What `getContents` builds for a file path. */
  function Loaded(path: string): string {
    "loaded config data from " + path
  }

  /** The path can be read back from the contents, so different paths load different contents. */
  lemma LoadedNamesPath(path: string, other: string)
    ensures |Loaded(path)| == 24 + |path| && Loaded(path)[24..] == path
    ensures Loaded(path) == Loaded(other) ==> path == other
  {
    assert Loaded(path)[24..] == path;
    assert Loaded(other)[24..] == other;
  }

  class ConfigLoader {
    const filePath: string
    var contents: Common.Option<string>

    /** Contents, once built, are those of this loader's path. */
    ghost predicate Valid()
      reads this
    {
      contents.Some? ==> contents.value == Loaded(filePath)
    }

    /** Nothing loaded yet. */
    constructor (path: string)
      ensures Valid() && filePath == path && contents == Common.None
    {
      filePath := path;
      contents := Common.None;
    }

    /** `getContents`: built on the first call; every call answers the same string. */
    method GetContents() returns (r: string)
      requires Valid()
      modifies this
      ensures Valid() && r == Loaded(filePath) && contents == Common.Some(r)
      ensures old(contents).Some? ==> contents == old(contents)
    {
      if contents.None? {
        var buf := "loaded config data from " + filePath;
        contents := Common.Some(buf);
      }
      r := contents.value;
    }
  }

  /** An object a reference can name. */
  class Cell<T> {
    var value: T

    constructor (v: T)
      ensures value == v
    {
      value := v;
    }
  }

  /** `swap_nothrow`: the two objects exchange their values (one and the same object keeps its own). */
  method SwapNothrow<T>(a: Cell<T>, b: Cell<T>)
    modifies a, b
    ensures a.value == old(b.value) && b.value == old(a.value)
  {
    var t := a.value;
    a.value := b.value;
    b.value := t;
  }

  /** `test_noexcept`: after the swap `a` is 2 and `b` is 1. */
  method TestNoexcept() returns (a: int, b: int)
    ensures a == 2 && b == 1
  {
    var x := new Cell(1);
    var y := new Cell(2);
    SwapNothrow(x, y);
    a, b := x.value, y.value;
  }
}
