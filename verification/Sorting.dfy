/** Sorted listings of finite sets: what `sort.Slice` and `sort.Strings` leave behind when
    they are given the keys of a map. */
module Sorting {
  predicate NoDuplicates(q: seq<string>) {
    forall i, j :: 0 <= i < j < |q| ==> q[i] != q[j]
  }

  ghost predicate StrictOrder<T(!new)>(less: (T, T) -> bool) {
    && (forall x :: !less(x, x))
    && (forall x, y, z :: less(x, y) && less(y, z) ==> less(x, z))
    && (forall x, y :: x == y || less(x, y) || less(y, x))
  }

  ghost predicate Ascending<T(!new)>(less: (T, T) -> bool, q: seq<T>) {
    forall i, j :: 0 <= i < j < |q| ==> less(q[i], q[j])
  }

  /** `q` lists the members of `s`, each once, in ascending order. */
  ghost predicate Lists<T(!new)>(less: (T, T) -> bool, q: seq<T>, s: set<T>) {
    Ascending(less, q) && (forall x :: x in q <==> x in s)
  }

  lemma EmptyListing<T(!new)>(less: (T, T) -> bool, q: seq<T>, s: set<T>)
    requires Lists(less, q, s)
    ensures q == [] <==> s == {}
  {
    if q != [] {
      assert q[0] in q;
    } else {
      assert forall x :: x in s ==> x in q;
    }
  }

  lemma {:induction false} ListsUnique<T(!new)>(less: (T, T) -> bool, p: seq<T>, q: seq<T>, s: set<T>)
    requires StrictOrder(less) && Lists(less, p, s) && Lists(less, q, s)
    ensures p == q
    decreases |p|
  {
    EmptyListing(less, p, s);
    EmptyListing(less, q, s);
    if p != [] {
      assert p[0] in q && q[0] in p;
      assert p[0] == q[0];
      var rest := s - {p[0]};
      ListsTail(less, p, s);
      ListsTail(less, q, s);
      ListsUnique(less, p[1..], q[1..], rest);
    }
  }

  lemma ListsTail<T(!new)>(less: (T, T) -> bool, q: seq<T>, s: set<T>)
    requires StrictOrder(less) && Lists(less, q, s) && q != []
    ensures Lists(less, q[1..], s - {q[0]})
  {}

  ghost predicate IsLeast<T(!new)>(less: (T, T) -> bool, m: T, s: set<T>) {
    m in s && forall x :: x in s && x != m ==> less(m, x)
  }

  lemma {:induction false} LeastExists<T(!new)>(less: (T, T) -> bool, s: set<T>)
    requires StrictOrder(less) && s != {}
    ensures exists m :: IsLeast(less, m, s)
  {
    var m :| m in s;
    if s == {m} {
      assert IsLeast(less, m, s);
    } else {
      LeastExists(less, s - {m});
      var n :| IsLeast(less, n, s - {m});
      assert IsLeast(less, if less(n, m) then n else m, s);
    }
  }

  function Least<T(==, !new)>(less: (T, T) -> bool, s: set<T>): (m: T)
    requires StrictOrder(less) && s != {}
    ensures IsLeast(less, m, s)
  {
    LeastExists(less, s);
    var m :| m in s && forall x :: x in s && x != m ==> less(m, x);
    m
  }

  function Sorted<T(==, !new)>(less: (T, T) -> bool, s: set<T>): (q: seq<T>)
    requires StrictOrder(less)
    ensures Lists(less, q, s)
  {
    if s == {} then [] else
      var m := Least(less, s);
      var rest := Sorted(less, s - {m});
      assert forall x :: x in [m] + rest <==> x == m || x in rest;
      [m] + rest
  }

  /** Some member, as ranging over the keys of a map comes upon it. */
  method Any<T(==)>(s: set<T>) returns (x: T)
    requires s != {}
    ensures x in s
  {
    x :| x in s;
  }

  predicate IntLess(x: int, y: int) { x < y }

  lemma IntOrder()
    ensures StrictOrder(IntLess)
  {}

  /** Byte-wise lexicographic order, the order of Go strings. */
  predicate StringLess(a: string, b: string) {
    b != [] && (a == [] || a[0] < b[0] || (a[0] == b[0] && StringLess(a[1..], b[1..])))
  }

  /** `b` continues `a`, or at the first place where they differ `a` has the smaller character. */
  ghost predicate LessAt(a: string, b: string, n: nat) {
    && n <= |a| && n < |b| && a[..n] == b[..n]
    && (n == |a| || a[n] < b[n])
  }

  lemma {:induction false} StringLessMeans(a: string, b: string)
    ensures StringLess(a, b) <==> exists n: nat :: LessAt(a, b, n)
  {
    if a != [] && b != [] && a[0] == b[0] {
      StringLessMeans(a[1..], b[1..]);
      if n: nat :| LessAt(a[1..], b[1..], n) {
        assert a[..n + 1] == [a[0]] + a[1..][..n] && b[..n + 1] == [b[0]] + b[1..][..n];
        assert LessAt(a, b, n + 1);
      }
      if n: nat :| LessAt(a, b, n) {
        assert n > 0;
        assert a[1..][..n - 1] == a[..n][1..] && b[1..][..n - 1] == b[..n][1..];
        assert LessAt(a[1..], b[1..], n - 1);
      }
    } else {
      assert LessAt(a, b, 0) <==> b != [] && (a == [] || a[0] < b[0]);
      assert forall n: nat :: n > 0 && n <= |a| && n < |b| ==> a[..n][0] == a[0] && b[..n][0] == b[0];
    }
  }

  lemma {:induction false} StringIrreflexive(a: string)
    ensures !StringLess(a, a)
  {
    if a != [] { StringIrreflexive(a[1..]); }
  }

  lemma {:induction false} StringTransitive(a: string, b: string, c: string)
    requires StringLess(a, b) && StringLess(b, c)
    ensures StringLess(a, c)
  {
    if a != [] && a[0] == b[0] && b[0] == c[0] {
      StringTransitive(a[1..], b[1..], c[1..]);
    }
  }

  lemma {:induction false} StringTotal(a: string, b: string)
    ensures a == b || StringLess(a, b) || StringLess(b, a)
  {
    if a != [] && b != [] && a[0] == b[0] {
      StringTotal(a[1..], b[1..]);
      assert a == [a[0]] + a[1..] && b == [b[0]] + b[1..];
    }
  }

  lemma StringOrder()
    ensures StrictOrder(StringLess)
  {
    forall x ensures !StringLess(x, x) { StringIrreflexive(x); }
    forall x, y, z | StringLess(x, y) && StringLess(y, z) ensures StringLess(x, z) {
      StringTransitive(x, y, z);
    }
    forall x, y ensures x == y || StringLess(x, y) || StringLess(y, x) { StringTotal(x, y); }
  }
}
