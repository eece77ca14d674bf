// The parameter-pack builders and the `printx` formatter of src/bin/pack.cpp.
//
// `make_vector_left(first, rest...)` and `make_vector_right(first, rest...)`
// emplace the arguments one by one into a vector, the pack expansion
// unrolled into a loop over `rest`. `printx(fmt, ...)` walks a C string and
// writes each plain character, the next argument for `%d` and `%s`, and
// nothing for `%` followed by any other character; what it writes is an
// out-parameter here, and the variadic arguments are a sequence.

module Pack {
  import opened Common

  // ---------------------------------------------------------------------
  // `make_vector_left` and `make_vector_right`

  /** What `make_vector_left` builds: the rest in order, then the first. */
  function PackedLeft<T>(first: T, rest: seq<T>): seq<T> {
    rest + [first]
  }

  /** What `make_vector_right` builds: the first, then the rest in order. */
  function PackedRight<T>(first: T, rest: seq<T>): seq<T> {
    [first] + rest
  }

  /** `make_vector_left`: `(v.emplace_back(rest), ..., v.emplace_back(first))`. */
  method MakeVectorLeft<T>(first: T, rest: seq<T>) returns (v: seq<T>)
    ensures v == PackedLeft(first, rest)
  {
    v := [];
    var i := 0;
    while i < |rest|
      invariant 0 <= i <= |rest| && v == rest[..i]
    {
      v := v + [rest[i]];
      i := i + 1;
    }
    v := v + [first];
  }

  /** `make_vector_right`: `(v.emplace_back(first), ..., v.emplace_back(rest))`. */
  method MakeVectorRight<T>(first: T, rest: seq<T>) returns (v: seq<T>)
    ensures v == PackedRight(first, rest)
  {
    v := [first];
    var i := 0;
    while i < |rest|
      invariant 0 <= i <= |rest| && v == [first] + rest[..i]
    {
      v := v + [rest[i]];
      i := i + 1;
    }
  }

  /**
   * Both builders reserve and fill `1 + sizeof...(rest)` elements, the same
   * ones: the left-built vector is the right-built one rotated by one place.
   */
  lemma PackedRotated<T>(first: T, rest: seq<T>)
    ensures |PackedLeft(first, rest)| == |PackedRight(first, rest)| == 1 + |rest|
    ensures multiset(PackedLeft(first, rest)) == multiset(PackedRight(first, rest))
    ensures PackedLeft(first, rest) == PackedRight(first, rest)[1..] + [PackedRight(first, rest)[0]]
  {
    assert PackedRight(first, rest)[1..] == rest;
  }

  /** `main` builds `[2, 3, 4, 5, 1]` and `[1, 2, 3, 4, 5]` from `(1, 2, 3, 4, 5)`. */
  method PackExamples() returns (left: seq<int>, right: seq<int>)
    ensures left == [2, 3, 4, 5, 1] && right == [1, 2, 3, 4, 5]
  {
    left := MakeVectorLeft(1, [2, 3, 4, 5]);
    right := MakeVectorRight(1, [2, 3, 4, 5]);
  }

  // ---------------------------------------------------------------------
  // `printx`

  /** One variadic argument: an `int` for `%d`, a C string for `%s`. */
  datatype Arg = IntArg(i: int) | StrArg(s: string)

  const NUL: char := '\0'

  /** A C string's text: everything before its first NUL. */
  function CText(s: string): (t: string)
    ensures |t| <= |s| && t == s[..|t|] && NUL !in t
    ensures |t| < |s| ==> s[|t|] == NUL
  {
    if s == [] || s[0] == NUL then [] else [s[0]] + CText(s[1..])
  }

  /** A decimal digit. */
  function Digit(d: nat): char
    requires d < 10
  {
    "0123456789"[d]
  }

  /** The decimal digits of `n`, most significant first, with no leading zero. */
  function Digits(n: nat): (s: string)
    ensures |s| >= 1
    decreases n
  {
    if n < 10 then [Digit(n)] else Digits(n / 10) + [Digit(n % 10)]
  }

  /** What `printf("%d", v)` writes. */
  function Decimal(v: int): string {
    if v < 0 then "-" + Digits(-v) else Digits(v)
  }

  function Prepend(x: string, rest: Option<string>): Option<string> {
    if rest.None? then None else Some(x + rest.value)
  }

  lemma PrependAssoc(x: string, y: string, rest: Option<string>)
    ensures Prepend(x, Prepend(y, rest)) == Prepend(x + y, rest)
    ensures Prepend([], rest) == rest
  {
    if rest.Some? {
      assert x + (y + rest.value) == (x + y) + rest.value;
      assert [] + rest.value == rest.value;
    }
  }

  /**
   * What `printx` writes from position `i` of the format on, taking its
   * arguments from `args`; `None` when a directive finds no argument of its
   * type, which the source leaves undefined. The format ends at its first
   * NUL, or at its end, which stands for the terminator.
   */
  function Written(fmt: string, i: nat, args: seq<Arg>): Option<string>
    requires i <= |fmt|
    decreases |fmt| - i
  {
    if i == |fmt| || fmt[i] == NUL then Some([])
    else if fmt[i] == '%' && i + 1 < |fmt| && fmt[i + 1] != NUL then
      if fmt[i + 1] == 'd' then
        if args != [] && args[0].IntArg? then Prepend(Decimal(args[0].i), Written(fmt, i + 2, args[1..])) else None
      else if fmt[i + 1] == 's' then
        if args != [] && args[0].StrArg? then Prepend(CText(args[0].s), Written(fmt, i + 2, args[1..])) else None
      else Written(fmt, i + 2, args)
    else Prepend([fmt[i]], Written(fmt, i + 1, args))
  }

  /** `printx`: writes what `Written` says and returns how many characters that is. */
  method Printx(fmt: string, args: seq<Arg>) returns (printed: int, out: string)
    requires Written(fmt, 0, args).Some?
    ensures Written(fmt, 0, args) == Some(out) && printed == |out|
  {
    printed := 0;
    out := [];
    var i := 0;
    var k := 0;
    assert args[k..] == args;
    PrependAssoc([], [], Written(fmt, 0, args));
    while i < |fmt| && fmt[i] != NUL
      invariant 0 <= i <= |fmt| && 0 <= k <= |args|
      invariant printed == |out|
      invariant Written(fmt, 0, args) == Prepend(out, Written(fmt, i, args[k..]))
      decreases |fmt| - i
    {
      if fmt[i] == '%' && i + 1 < |fmt| && fmt[i + 1] != NUL {
        i := i + 1;
        if fmt[i] == 'd' {
          assert args[k..][1..] == args[k + 1..];
          var s := Decimal(args[k].i);
          PrependAssoc(out, s, Written(fmt, i + 1, args[k + 1..]));
          out := out + s;
          printed := printed + |s|;
          k := k + 1;
        } else if fmt[i] == 's' {
          assert args[k..][1..] == args[k + 1..];
          var s := CText(args[k].s);
          PrependAssoc(out, s, Written(fmt, i + 1, args[k + 1..]));
          out := out + s;
          printed := printed + |s|;
          k := k + 1;
        }
        i := i + 1;
      } else {
        PrependAssoc(out, [fmt[i]], Written(fmt, i + 1, args[k..]));
        out := out + [fmt[i]];
        printed := printed + 1;
        i := i + 1;
      }
    }
    assert out + [] == out;
  }

  /** A run of plain characters is written as it stands, ahead of whatever follows it. */
  lemma {:induction false} PlainRun(fmt: string, i: nat, j: nat, args: seq<Arg>)
    requires i <= j <= |fmt|
    requires forall m :: i <= m < j ==> fmt[m] != '%' && fmt[m] != NUL
    ensures Written(fmt, i, args) == Prepend(fmt[i..j], Written(fmt, j, args))
    decreases j - i
  {
    if i < j {
      PlainRun(fmt, i + 1, j, args);
      assert fmt[i..j] == [fmt[i]] + fmt[i + 1..j];
      PrependAssoc([fmt[i]], fmt[i + 1..j], Written(fmt, j, args));
    } else {
      assert fmt[i..j] == [];
      PrependAssoc([], [], Written(fmt, j, args));
    }
  }

  /** A format with no `%` writes its own text, up to its first NUL, and uses no argument. */
  lemma {:induction false} NoDirectives(fmt: string, i: nat, args: seq<Arg>)
    requires i <= |fmt| && forall m :: i <= m < |fmt| ==> fmt[m] != '%'
    ensures Written(fmt, i, args) == Some(CText(fmt[i..]))
    decreases |fmt| - i
  {
    if i < |fmt| && fmt[i] != NUL {
      NoDirectives(fmt, i + 1, args);
      assert fmt[i..][1..] == fmt[i + 1..];
    }
  }

  /** A `%` in the last place is written as it stands. */
  lemma TrailingPercent(fmt: string, args: seq<Arg>)
    requires |fmt| >= 1 && fmt[|fmt| - 1] == '%'
    ensures Written(fmt, |fmt| - 1, args) == Some("%")
  {
    assert ['%'] + [] == "%";
  }

  /** Past a prefix, the format is read as if the prefix were not there. */
  lemma {:induction false} WrittenShift(p: string, rest: string, j: nat, args: seq<Arg>)
    requires j <= |rest|
    ensures Written(p + rest, |p| + j, args) == Written(rest, j, args)
    decreases |rest| - j
  {
    var f := p + rest;
    if j < |rest| {
      assert f[|p| + j] == rest[j];
      if j + 1 < |rest| {
        assert f[|p| + j + 1] == rest[j + 1];
      }
      if j + 2 <= |rest| {
        WrittenShift(p, rest, j + 2, args);
        if args != [] {
          WrittenShift(p, rest, j + 2, args[1..]);
        }
      }
      WrittenShift(p, rest, j + 1, args);
    }
  }

  /** A prefix of plain characters is written first, as it stands. */
  lemma PlainPrefix(p: string, rest: string, args: seq<Arg>)
    requires '%' !in p && NUL !in p
    ensures Written(p + rest, 0, args) == Prepend(p, Written(rest, 0, args))
  {
    PlainRun(p + rest, 0, |p|, args);
    assert (p + rest)[0..|p|] == p;
    WrittenShift(p, rest, 0, args);
  }

  /** `%d` at the head of the format writes the next argument in decimal. */
  lemma IntDirective(rest: string, v: int, args: seq<Arg>)
    ensures Written("%d" + rest, 0, [IntArg(v)] + args) == Prepend(Decimal(v), Written(rest, 0, args))
  {
    var f := "%d" + rest;
    assert f[0] == '%' && f[1] == 'd';
    assert ([IntArg(v)] + args)[1..] == args;
    WrittenShift("%d", rest, 0, args);
  }

  /** `%s` at the head of the format writes the next argument's text. */
  lemma StrDirective(rest: string, t: string, args: seq<Arg>)
    ensures Written("%s" + rest, 0, [StrArg(t)] + args) == Prepend(CText(t), Written(rest, 0, args))
  {
    var f := "%s" + rest;
    assert f[0] == '%' && f[1] == 's';
    assert ([StrArg(t)] + args)[1..] == args;
    WrittenShift("%s", rest, 0, args);
  }

  /** The tail of the example below: ", your score is ", then `%d` with 95, then a newline and the NUL that ends it. */
  lemma ExampleTail(tail: string)
    requires tail == ", your score is " + ("%d" + "\n\0")
    ensures Written(tail, 0, [IntArg(95)] + []) == Some(", your score is " + ("95" + "\n"))
  {
    var d := "\n\0";
    assert Written(d, 1, []) == Some([]);
    assert Written(d, 0, []) == Some("\n" + []);
    assert "\n" + [] == "\n";
    assert Decimal(95) == "95" by {
      assert Digits(95) == Digits(9) + [Digit(5)];
    }
    IntDirective(d, 95, []);
    PlainPrefix(", your score is ", "%d" + d, [IntArg(95)] + []);
  }

  /**
   * `printx("Hello %s, your score is %d\n\0", "Alice", 95)`, the format and
   * the text written cut at the directives: it writes "Hello Alice, your
   * score is 95" and a newline, 30 characters, and stops at the embedded NUL.
   */
  lemma PrintxExample(fmt: string, args: seq<Arg>, out: string)
    requires fmt == "Hello " + ("%s" + (", your score is " + ("%d" + "\n\0")))
    requires args == [StrArg("Alice")] + ([IntArg(95)] + [])
    requires out == "Hello " + ("Alice" + (", your score is " + ("95" + "\n")))
    ensures Written(fmt, 0, args) == Some(out) && |out| == 30
  {
    var tail := ", your score is " + ("%d" + "\n\0");
    ExampleTail(tail);
    assert CText("Alice") == "Alice";
    StrDirective(tail, "Alice", [IntArg(95)] + []);
    PlainPrefix("Hello ", "%s" + tail, args);
  }
}
