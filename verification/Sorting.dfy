/** Sorting by a comparison, as Go's sort.Slice promises it, and when the result is unique. */
module Sorting {
  /** What sort.Slice asks of its comparison: a strict weak order. */
  ghost predicate WeakOrder<T(!new)>(less: (T, T) -> bool) {
    && (forall a, b :: less(a, b) ==> !less(b, a))
    && (forall a, b, c :: less(a, c) ==> less(a, b) || less(b, c))
  }

  ghost predicate SortedBy<T>(s: seq<T>, less: (T, T) -> bool) {
    forall i, j | 0 <= i < j < |s| :: !less(s[j], s[i])
  }

  ghost predicate StrictlySorted<T>(s: seq<T>, less: (T, T) -> bool) {
    forall i, j | 0 <= i < j < |s| :: less(s[i], s[j])
  }

  ghost predicate SameElements<T>(a: seq<T>, b: seq<T>) {
    (forall x | x in a :: x in b) && (forall x | x in b :: x in a)
  }

  ghost predicate NoDuplicates<T>(s: seq<T>) {
    forall i, j | 0 <= i < j < |s| :: s[i] != s[j]
  }

  function Insert<T>(x: T, s: seq<T>, less: (T, T) -> bool): seq<T> {
    if s == [] || less(x, s[0]) then [x] + s else [s[0]] + Insert(x, s[1..], less)
  }

  lemma {:induction false} InsertKeeps<T(!new)>(x: T, s: seq<T>, less: (T, T) -> bool)
    ensures multiset(Insert(x, s, less)) == multiset(s) + multiset{x}
    ensures forall y | y in Insert(x, s, less) :: y == x || y in s
  {
    if s != [] && !less(x, s[0]) {
      InsertKeeps(x, s[1..], less);
      assert s == [s[0]] + s[1..];
    }
  }

  lemma {:induction false} InsertSorts<T(!new)>(x: T, s: seq<T>, less: (T, T) -> bool)
    requires WeakOrder(less) && SortedBy(s, less)
    ensures SortedBy(Insert(x, s, less), less)
  {
    if s == [] {
    } else if less(x, s[0]) {
      forall j | 0 <= j < |s|
        ensures !less(s[j], x)
      {
      }
    } else {
      InsertSorts(x, s[1..], less);
      InsertKeeps(x, s[1..], less);
      ConsSorted(s[0], Insert(x, s[1..], less), less);
    }
  }

  lemma ConsSorted<T>(h: T, s: seq<T>, less: (T, T) -> bool)
    requires SortedBy(s, less) && forall y | y in s :: !less(y, h)
    ensures SortedBy([h] + s, less)
  {
    var r := [h] + s;
    forall i, j | 0 <= i < j < |r|
      ensures !less(r[j], r[i])
    {
      assert r[j] == s[j - 1] && s[j - 1] in s;
      assert i > 0 ==> r[i] == s[i - 1];
    }
  }

  /** sort.Slice: some permutation sorted by the comparison. */
  method SortSlice<T(!new)>(s: seq<T>, less: (T, T) -> bool) returns (r: seq<T>)
    requires WeakOrder(less)
    ensures multiset(r) == multiset(s) && SortedBy(r, less)
  {
    r := [];
    for i := 0 to |s|
      invariant multiset(r) == multiset(s[..i]) && SortedBy(r, less)
    {
      InsertSorts(s[i], r, less);
      InsertKeeps(s[i], r, less);
      r := Insert(s[i], r, less);
      assert s[..i + 1] == s[..i] + [s[i]];
    }
    assert s[..|s|] == s;
  }

  lemma MultisetElements<T>(a: seq<T>, b: seq<T>)
    requires multiset(a) == multiset(b)
    ensures SameElements(a, b) && |a| == |b|
  {
    forall x | x in a
      ensures x in b
    {
      assert x in multiset(a);
    }
    forall x | x in b
      ensures x in a
    {
      assert x in multiset(b);
    }
    assert |multiset(a)| == |multiset(b)|;
  }

  lemma {:induction false} DuplicateFreeCount<T>(s: seq<T>)
    ensures NoDuplicates(s) <==> forall x | x in s :: multiset(s)[x] == 1
  {
    if s != [] {
      var n := |s| - 1;
      var p, y := s[..n], s[n];
      assert s == p + [y];
      DuplicateFreeCount(p);
      assert NoDuplicates(s) <==> NoDuplicates(p) && y !in p;
      assert y in p <==> multiset(p)[y] > 0;
      if NoDuplicates(s) {
        forall x | x in s
          ensures multiset(s)[x] == 1
        {
        }
      } else if NoDuplicates(p) {
        assert multiset(s)[y] == 2;
      } else {
        var x :| x in p && multiset(p)[x] != 1;
        assert x in s && multiset(p)[x] > 1;
      }
    }
  }

  lemma PermutationKeepsDistinct<T>(a: seq<T>, b: seq<T>)
    requires multiset(a) == multiset(b) && NoDuplicates(a)
    ensures NoDuplicates(b)
  {
    DuplicateFreeCount(a);
    DuplicateFreeCount(b);
    MultisetElements(a, b);
  }

  lemma SortedConcat<T>(a: seq<T>, b: seq<T>, less: (T, T) -> bool)
    requires StrictlySorted(a, less) && StrictlySorted(b, less)
    requires forall x, y | x in a && y in b :: less(x, y)
    ensures StrictlySorted(a + b, less)
  {
  }

  lemma HasElement<T>(s: seq<T>)
    requires s != []
    ensures exists x :: x in s
  {
    assert s[0] in s;
  }

  /** Two strictly sorted sequences with the same elements are the same sequence: where the
      comparison separates all elements, the result of sorting is canonical. */
  lemma {:induction false} StrictlySortedUnique<T(!new)>(a: seq<T>, b: seq<T>, less: (T, T) -> bool)
    requires forall x, y :: less(x, y) ==> !less(y, x)
    requires StrictlySorted(a, less) && StrictlySorted(b, less) && SameElements(a, b)
    ensures a == b
  {
    if a == [] {
      if b != [] {
        HasElement(b);
        assert false;
      }
    } else {
      assert a[0] in b;
      var p, q := a[..|a| - 1], b[..|b| - 1];
      var x, y := a[|a| - 1], b[|b| - 1];
      assert a == p + [x] && b == q + [y];
      assert x == y by {
        assert x in b && y in a;
      }
      assert x !in p && y !in q;
      forall z
        ensures z in p <==> z in q
      {
        assert z in a <==> z in p || z == x;
        assert z in b <==> z in q || z == y;
      }
      StrictlySortedUnique(p, q, less);
    }
  }
}
