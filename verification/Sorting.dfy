/**
  Sorting and filtering of ring positions.  Go's `sort.Slice` is only known to return a sorted
  permutation; `SortedUnique` shows that for integers this fixes the result, so `Sort` below
  stands for whatever algorithm the library runs.
 */
module Sorting {
  import opened Vnodes

  ghost predicate Sorted(s: seq<U32>) {
    forall i, j :: 0 <= i < j < |s| ==> s[i] <= s[j]
  }

  function Elems<T>(s: seq<T>): set<T> {
    set x | x in s
  }

  lemma NoElems<T>(s: seq<T>)
    ensures Elems(s) == {} <==> s == []
  {
    if s != [] { assert s[0] in Elems(s); }
  }

  lemma SortedCons(x: U32, s: seq<U32>)
    requires Sorted(s) && forall y :: y in s ==> x <= y
    ensures Sorted([x] + s)
  {
    assert forall j :: 0 < j < |s| + 1 ==> ([x] + s)[j] == s[j - 1] && s[j - 1] in s;
  }

  function Insert(x: U32, s: seq<U32>): (r: seq<U32>)
    ensures multiset(r) == multiset(s) + multiset{x}
  {
    if s == [] || x <= s[0] then [x] + s else
      assert s == [s[0]] + s[1..];
      [s[0]] + Insert(x, s[1..])
  }

  lemma {:induction false} InsertSorted(x: U32, s: seq<U32>)
    requires Sorted(s)
    ensures Sorted(Insert(x, s))
  {
    if s == [] || x <= s[0] {
      SortedCons(x, s);
    } else {
      InsertSorted(x, s[1..]);
      forall y | y in Insert(x, s[1..]) ensures s[0] <= y {
        assert y in multiset(s[1..]) + multiset{x};
      }
      SortedCons(s[0], Insert(x, s[1..]));
    }
  }

  function Sort(s: seq<U32>): (r: seq<U32>)
    ensures Sorted(r)
    ensures multiset(r) == multiset(s)
  {
    if s == [] then [] else
      assert s == [s[0]] + s[1..];
      InsertSorted(s[0], Sort(s[1..]));
      Insert(s[0], Sort(s[1..]))
  }

  lemma HeadIsLeast(a: seq<U32>, x: U32)
    requires Sorted(a) && x in multiset(a)
    ensures a != [] && a[0] <= x
  {
  }

  lemma TailCounts(a: seq<U32>)
    requires a != []
    ensures multiset(a[1..]) == multiset(a) - multiset{a[0]}
  {
    assert a == [a[0]] + a[1..];
  }

  lemma SameHead(a: seq<U32>, b: seq<U32>)
    requires a != [] && Sorted(a) && Sorted(b) && multiset(a) == multiset(b)
    ensures b != [] && a[0] == b[0]
  {
    assert a[0] in multiset(a);
    HeadIsLeast(b, a[0]);
    assert b[0] in multiset(b);
    HeadIsLeast(a, b[0]);
  }

  lemma SortedTail(a: seq<U32>)
    requires a != [] && Sorted(a)
    ensures Sorted(a[1..])
  {
  }

  lemma Rejoin(a: seq<U32>, b: seq<U32>)
    requires a != [] && b != [] && a[0] == b[0] && a[1..] == b[1..]
    ensures a == b
  {
    assert a == [a[0]] + a[1..];
    assert b == [b[0]] + b[1..];
  }

  /** A sorted sequence is determined by its multiset. */
  lemma {:induction false} SortedUnique(a: seq<U32>, b: seq<U32>)
    requires Sorted(a) && Sorted(b) && multiset(a) == multiset(b)
    ensures a == b
  {
    if a != [] {
      SameHead(a, b);
      TailCounts(a);
      TailCounts(b);
      SortedTail(a);
      SortedTail(b);
      SortedUnique(a[1..], b[1..]);
      Rejoin(a, b);
    } else if b != [] {
      SameHead(b, a);
    }
  }

  lemma SortedUniqueByCounts(a: seq<U32>, b: seq<U32>)
    requires Sorted(a) && Sorted(b) && forall x: U32 :: multiset(a)[x] == multiset(b)[x]
    ensures a == b
  {
    assert multiset(a) == multiset(b);
    SortedUnique(a, b);
  }

  function Filter(s: seq<U32>, drop: set<U32>): seq<U32> {
    if s == [] then [] else
    if s[0] in drop then Filter(s[1..], drop) else [s[0]] + Filter(s[1..], drop)
  }

  lemma {:induction false} FilterCounts(s: seq<U32>, drop: set<U32>, x: U32)
    ensures multiset(Filter(s, drop))[x] == if x in drop then 0 else multiset(s)[x]
  {
    if s != [] {
      assert s == [s[0]] + s[1..];
      FilterCounts(s[1..], drop, x);
    }
  }

  lemma FilterElems(s: seq<U32>, drop: set<U32>)
    ensures Elems(Filter(s, drop)) == Elems(s) - drop
  {
    forall x: U32 ensures x in Filter(s, drop) <==> x in s && x !in drop {
      FilterCounts(s, drop, x);
      assert x in Filter(s, drop) <==> x in multiset(Filter(s, drop));
      assert x in s <==> x in multiset(s);
    }
  }

  lemma {:induction false} FilterSorted(s: seq<U32>, drop: set<U32>)
    requires Sorted(s)
    ensures Sorted(Filter(s, drop))
  {
    if s != [] {
      FilterSorted(s[1..], drop);
      forall y | y in Filter(s[1..], drop) ensures s[0] <= y {
        FilterElems(s[1..], drop);
        assert y in Elems(Filter(s[1..], drop));
      }
      SortedCons(s[0], Filter(s[1..], drop));
    }
  }

  lemma FilterNext(s: seq<U32>, i: nat, drop: set<U32>)
    requires i < |s|
    ensures Filter(s[i..], drop) == (if s[i] in drop then [] else [s[i]]) + Filter(s[i + 1..], drop)
  {
    assert s[i..][1..] == s[i + 1..];
  }

  lemma SortElems(s: seq<U32>)
    ensures Elems(Sort(s)) == Elems(s)
  {
    forall x: U32 ensures x in Sort(s) <==> x in s {
      assert x in Sort(s) <==> x in multiset(Sort(s));
      assert x in s <==> x in multiset(s);
    }
  }
}
