/**
 * Insertion sort by a comparison: the specification of sorting with a comparator, and its
 * uniqueness for total orders.
 */
module Sorting {
  /** `before` is a strict weak order: no cycles, and "not after" is transitive. */
  ghost predicate StrictWeak<T(!new)>(before: (T, T) -> bool) {
    && (forall a, b :: before(a, b) ==> !before(b, a))
    && (forall a, b, c :: !before(b, a) && !before(c, b) ==> !before(c, a))
  }

  ghost predicate Total<T(!new)>(before: (T, T) -> bool) {
    forall a, b :: a == b || before(a, b) || before(b, a)
  }

  predicate Ordered<T>(before: (T, T) -> bool, s: seq<T>) {
    forall i, j :: 0 <= i < j < |s| ==> !before(s[j], s[i])
  }

  function Insert<T(==)>(before: (T, T) -> bool, x: T, s: seq<T>): (r: seq<T>)
    ensures multiset(r) == multiset(s) + multiset{x}
  {
    if s == [] || !before(s[0], x) then [x] + s
    else
      assert s == [s[0]] + s[1..];
      [s[0]] + Insert(before, x, s[1..])
  }

  function Sort<T(==)>(before: (T, T) -> bool, s: seq<T>): (r: seq<T>)
    ensures multiset(r) == multiset(s)
  {
    if s == [] then []
    else
      assert s == [s[0]] + s[1..];
      Insert(before, s[0], Sort(before, s[1..]))
  }

  lemma {:induction false} InsertOrdered<T(!new)>(before: (T, T) -> bool, x: T, s: seq<T>)
    requires StrictWeak(before) && Ordered(before, s)
    ensures Ordered(before, Insert(before, x, s))
  {
    if s != [] && before(s[0], x) {
      var rest := Insert(before, x, s[1..]);
      InsertOrdered(before, x, s[1..]);
      forall i | 0 <= i < |rest|
        ensures !before(rest[i], s[0])
      {
        assert rest[i] in multiset(rest);
        assert rest[i] == x || rest[i] in multiset(s[1..]);
      }
    } else if s != [] {
      forall i | 0 <= i < |s|
        ensures !before(s[i], x)
      {
        assert !before(s[0], x) && (i > 0 ==> !before(s[i], s[0]));
      }
    }
  }

  lemma {:induction false} SortOrdered<T(!new)>(before: (T, T) -> bool, s: seq<T>)
    requires StrictWeak(before)
    ensures Ordered(before, Sort(before, s))
  {
    if s != [] {
      SortOrdered(before, s[1..]);
      InsertOrdered(before, s[0], Sort(before, s[1..]));
    }
  }

  lemma SortElements<T>(before: (T, T) -> bool, s: seq<T>)
    ensures forall x :: x in Sort(before, s) <==> x in s
  {
    forall x
      ensures x in Sort(before, s) <==> x in s
    {
      assert x in multiset(Sort(before, s)) <==> x in multiset(s);
    }
  }

  lemma TailMultiset<T>(s: seq<T>)
    requires s != []
    ensures s == [s[0]] + s[1..] && multiset(s[1..]) == multiset(s) - multiset{s[0]}
  {
    assert s == [s[0]] + s[1..];
  }

  lemma FirstIsLeast<T(!new)>(before: (T, T) -> bool, s: seq<T>, x: T)
    requires Ordered(before, s) && x in s
    ensures x == s[0] || !before(x, s[0])
  {
  }

  lemma HeadsAgree<T(!new)>(before: (T, T) -> bool, s: seq<T>, t: seq<T>)
    requires Total(before) && s != [] && t != []
    requires Ordered(before, s) && Ordered(before, t) && multiset(s) == multiset(t)
    ensures s[0] == t[0]
  {
    assert s[0] in multiset(t) && t[0] in multiset(s);
    FirstIsLeast(before, s, t[0]);
    FirstIsLeast(before, t, s[0]);
  }

  /** A total order leaves no choice: two ordered arrangements of the same elements are equal. */
  lemma {:induction false} OrderedIsUnique<T(!new)>(before: (T, T) -> bool, s: seq<T>, t: seq<T>)
    requires StrictWeak(before) && Total(before)
    requires Ordered(before, s) && Ordered(before, t) && multiset(s) == multiset(t)
    ensures s == t
  {
    assert |multiset(s)| == |multiset(t)|;
    if s != [] {
      HeadsAgree(before, s, t);
      hide StrictWeak, Total;
      TailMultiset(s);
      TailMultiset(t);
      assert Ordered(before, s[1..]) && Ordered(before, t[1..]);
      hide Ordered;
      OrderedIsUnique(before, s[1..], t[1..]);
    }
  }

  /** Sorting by a total order forgets the order of its input and nothing else. */
  lemma SortForgetsOrder<T(!new)>(before: (T, T) -> bool, s: seq<T>, t: seq<T>)
    requires StrictWeak(before) && Total(before)
    ensures Sort(before, s) == Sort(before, t) <==> multiset(s) == multiset(t)
  {
    SortOrdered(before, s);
    SortOrdered(before, t);
    if multiset(s) == multiset(t) {
      OrderedIsUnique(before, Sort(before, s), Sort(before, t));
    }
  }

  predicate Distinct<T(==)>(s: seq<T>) {
    forall i, j :: 0 <= i < j < |s| ==> s[i] != s[j]
  }

  lemma {:induction false} DistinctCounts<T>(s: seq<T>, x: T)
    requires Distinct(s)
    ensures multiset(s)[x] == if x in s then 1 else 0
  {
    if s != [] {
      DistinctCounts(s[1..], x);
      assert s == [s[0]] + s[1..];
    }
  }

  lemma {:induction false} CountsMeanDistinct<T(!new)>(s: seq<T>)
    requires forall x :: multiset(s)[x] <= 1
    ensures Distinct(s)
  {
    if s != [] {
      var rest := s[1..];
      assert s == [s[0]] + rest;
      assert forall x :: multiset(rest)[x] <= multiset(s)[x];
      CountsMeanDistinct(rest);
      assert s[0] !in multiset(rest);
    }
  }

  lemma SortKeepsDistinct<T(!new)>(before: (T, T) -> bool, s: seq<T>)
    requires Distinct(s)
    ensures Distinct(Sort(before, s))
  {
    forall x
      ensures multiset(s)[x] <= 1
    {
      DistinctCounts(s, x);
    }
    CountsMeanDistinct(Sort(before, s));
  }
}
