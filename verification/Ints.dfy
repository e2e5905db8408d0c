/** The fixed-width integers of the source. */
module Ints {
  const TWO_32 := 0x1_0000_0000
  const TWO_63 := 0x8000_0000_0000_0000
  const TWO_64 := 0x1_0000_0000_0000_0000

  type U32 = x: nat | x < TWO_32

  predicate InInt64(x: int) {
    -TWO_63 <= x < TWO_63
  }

  type Int64 = x: int | InInt64(x)

  /** The value an int64 holds after an operation whose exact result is `x`. */
  function Wrap64(x: int): Int64 {
    (x + TWO_63) % TWO_64 - TWO_63
  }

  /** The value a uint32 holds after a conversion from `x`. */
  function Wrap32(x: nat): U32 {
    x % TWO_32
  }

  /** A conversion changes a number by a multiple of the width, into the range of the type; so
      there is just one value it can give. */
  lemma WrapMeans(x: int)
    ensures exists k: int :: Wrap64(x) == x + k * TWO_64
    ensures x >= 0 ==> exists k: int :: Wrap32(x) == x + k * TWO_32
  {
    assert Wrap64(x) == x + -((x + TWO_63) / TWO_64) * TWO_64;
    if x >= 0 {
      assert Wrap32(x) == x + -(x / TWO_32) * TWO_32;
    }
  }

  /** Wrapping is exact inside the range and only there. */
  lemma WrapExact(x: int)
    ensures Wrap64(x) == x <==> InInt64(x)
  {}

  /** An inner wrap is absorbed by an outer one. */
  lemma WrapAbsorbs(x: int, y: int)
    ensures Wrap64(Wrap64(x) + y) == Wrap64(x + y)
  {}

  /** Sum of `f` over a sequence. */
  ghost function Sum<T>(f: T -> int, s: seq<T>): int {
    if s == [] then 0 else Sum(f, s[..|s| - 1]) + f(s[|s| - 1])
  }

  lemma {:induction false} SumSplit<T>(f: T -> int, s: seq<T>, t: seq<T>)
    ensures Sum(f, s + t) == Sum(f, s) + Sum(f, t)
  {
    if t == [] {
      assert s + t == s;
    } else {
      var u := t[..|t| - 1];
      assert (s + t)[..|s + t| - 1] == s + u;
      SumSplit(f, s, u);
    }
  }

  /** A sum does not depend on the order of its terms. */
  lemma {:induction false} SumPermuted<T>(f: T -> int, s: seq<T>, t: seq<T>)
    requires multiset(s) == multiset(t)
    ensures Sum(f, s) == Sum(f, t)
    decreases |s|
  {
    if s == [] {
      assert forall i :: 0 <= i < |t| ==> t[i] in multiset(s);
    } else {
      var x := s[|s| - 1];
      assert x in multiset(t);
      var i :| 0 <= i < |t| && t[i] == x;
      var before, after := t[..i], t[i + 1..];
      assert t == before + [x] + after;
      assert s == s[..|s| - 1] + [x];
      assert multiset(t) == multiset(before + after) + multiset{x};
      assert multiset(s[..|s| - 1]) == multiset(s) - multiset{x};
      assert multiset(s[..|s| - 1]) == multiset(before + after);
      SumPermuted(f, s[..|s| - 1], before + after);
      SumSplit(f, before, after);
      SumSplit(f, before + [x], after);
      assert (before + [x])[..i] == before;
    }
  }

  lemma {:induction false} SumAgrees<T>(f: T -> int, g: T -> int, s: seq<T>)
    requires forall x :: x in s ==> f(x) == g(x)
    ensures Sum(f, s) == Sum(g, s)
  {
    if s != [] {
      SumAgrees(f, g, s[..|s| - 1]);
    }
  }
}
