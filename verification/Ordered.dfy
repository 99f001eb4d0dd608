/** Duplicate-free sorting: what collecting keys of a map and sorting them amounts to, whatever order the map is walked in. */
module Ordered {

  ghost predicate StrictTotal<T(!new)>(less: (T, T) -> bool) {
    && (forall x :: !less(x, x))
    && (forall x, y, z :: less(x, y) && less(y, z) ==> less(x, z))
    && (forall x, y :: x != y ==> less(x, y) || less(y, x))
  }

  predicate Increasing<T>(less: (T, T) -> bool, s: seq<T>) {
    forall i, j :: 0 <= i < j < |s| ==> less(s[i], s[j])
  }

  function Insert<T(==)>(less: (T, T) -> bool, s: seq<T>, x: T): seq<T> {
    if s == [] then [x]
    else if s[0] == x then s
    else if less(x, s[0]) then [x] + s
    else [s[0]] + Insert(less, s[1..], x)
  }

  /** The members of a list, sorted, each once. */
  function Sorted<T(==)>(less: (T, T) -> bool, xs: seq<T>): seq<T> {
    if xs == [] then [] else Insert(less, Sorted(less, xs[1..]), xs[0])
  }

  lemma {:induction false} InsertSpec<T(!new)>(less: (T, T) -> bool, s: seq<T>, x: T)
    requires StrictTotal(less) && Increasing(less, s)
    ensures Increasing(less, Insert(less, s, x))
    ensures forall y :: y in Insert(less, s, x) <==> y == x || y in s
  {
    if s != [] {
      assert s == [s[0]] + s[1..];
      InsertSpec(less, s[1..], x);
      var r := Insert(less, s[1..], x);
      forall k | 0 <= k < |r| && less(s[0], x) ensures less(s[0], r[k]) {
        assert r[k] in r;
      }
    }
  }

  lemma {:induction false} SortedSpec<T(!new)>(less: (T, T) -> bool, xs: seq<T>)
    requires StrictTotal(less)
    ensures Increasing(less, Sorted(less, xs))
    ensures forall y :: y in Sorted(less, xs) <==> y in xs
  {
    if xs != [] {
      assert xs == [xs[0]] + xs[1..];
      SortedSpec(less, xs[1..]);
      InsertSpec(less, Sorted(less, xs[1..]), xs[0]);
    }
  }

  /** An increasing list is determined by its members. */
  lemma {:induction false} IncreasingUnique<T(!new)>(less: (T, T) -> bool, a: seq<T>, b: seq<T>)
    requires StrictTotal(less) && Increasing(less, a) && Increasing(less, b)
    requires forall y :: y in a <==> y in b
    ensures a == b
  {
    assert b != [] ==> b[0] in b;
    if a != [] {
      assert a[0] in a && a[0] in b && b[0] in a;
      assert a[0] == b[0];
      assert a == [a[0]] + a[1..] && b == [b[0]] + b[1..];
      forall y ensures y in a[1..] <==> y in b[1..] {
        if y in a[1..] {
          assert y in a && less(a[0], y);
        }
        if y in b[1..] {
          assert y in b && less(b[0], y);
        }
      }
      IncreasingUnique(less, a[1..], b[1..]);
    }
  }

  /** Order and repetition in the input do not matter. */
  lemma SortedByMembers<T(!new)>(less: (T, T) -> bool, xs: seq<T>, ys: seq<T>)
    requires StrictTotal(less) && forall y :: y in xs <==> y in ys
    ensures Sorted(less, xs) == Sorted(less, ys)
  {
    SortedSpec(less, xs);
    SortedSpec(less, ys);
    IncreasingUnique(less, Sorted(less, xs), Sorted(less, ys));
  }

  lemma SortedIdempotent<T(!new)>(less: (T, T) -> bool, xs: seq<T>)
    requires StrictTotal(less)
    ensures Sorted(less, Sorted(less, xs)) == Sorted(less, xs)
  {
    SortedSpec(less, xs);
    SortedByMembers(less, Sorted(less, xs), xs);
  }

  lemma {:induction false} MultisetMembers<T>(xs: seq<T>, ys: seq<T>)
    requires multiset(xs) == multiset(ys)
    ensures forall y :: y in xs <==> y in ys
  {
    forall y ensures y in xs <==> y in ys {
      assert y in multiset(xs) <==> y in multiset(ys);
    }
  }

  /** Walk the keys of a map in whatever order the runtime picks, collect them, sort. */
  method CollectSorted<T(==, !new)>(less: (T, T) -> bool, keys: set<T>) returns (result: seq<T>)
    requires StrictTotal(less)
    ensures Increasing(less, result) && forall y :: y in result <==> y in keys
  {
    result := [];
    var rest := keys;
    while rest != {}
      invariant rest <= keys && Increasing(less, result)
      invariant forall y :: y in result <==> y in keys && y !in rest
      decreases rest
    {
      var key :| key in rest;
      InsertSpec(less, result, key);
      result := Insert(less, result, key);
      rest := rest - {key};
    }
  }
}
