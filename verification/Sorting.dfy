// Sorting by a comparison, permutations, distinct elements and sums that do not depend on
// the order of a sequence.

module Sorting {

  // A comparison that orders all values up to ties.
  ghost predicate StrictWeakOrder<T(!new)>(less: (T, T) -> bool) {
    && (forall x, y :: less(x, y) ==> !less(y, x))
    && (forall x, y, z :: !less(x, y) && !less(y, z) ==> !less(x, z))
  }

  ghost predicate Total<T(!new)>(less: (T, T) -> bool) {
    forall x, y :: x != y ==> less(x, y) || less(y, x)
  }

  ghost predicate SortedBy<T(!new)>(less: (T, T) -> bool, s: seq<T>) {
    forall i, j :: 0 <= i < j < |s| ==> !less(s[j], s[i])
  }

  // Before the first element that x precedes.
  function Insert<T(!new)>(less: (T, T) -> bool, x: T, s: seq<T>): (r: seq<T>)
    ensures multiset(r) == multiset(s) + multiset{x}
    ensures |r| == |s| + 1
  {
    if s == [] then [x]
    else if less(x, s[0]) then
      assert s == [s[0]] + s[1..];
      [x] + s
    else
      assert s == [s[0]] + s[1..];
      [s[0]] + Insert(less, x, s[1..])
  }

  // Inserts the elements in order, so ties keep their order.
  function Sort<T(!new)>(less: (T, T) -> bool, s: seq<T>): (r: seq<T>)
    ensures multiset(r) == multiset(s) && |r| == |s|
  {
    if s == [] then []
    else
      assert s == s[..|s| - 1] + [s[|s| - 1]];
      Insert(less, s[|s| - 1], Sort(less, s[..|s| - 1]))
  }

  lemma SameElements<T>(a: seq<T>, b: seq<T>)
    requires multiset(a) == multiset(b)
    ensures forall x :: x in a <==> x in b
  {
    forall x
      ensures x in a <==> x in b
    {
      assert x in a <==> x in multiset(a);
      assert x in b <==> x in multiset(b);
    }
  }

  lemma {:induction false} InsertSorted<T(!new)>(less: (T, T) -> bool, x: T, s: seq<T>)
    requires StrictWeakOrder(less) && SortedBy(less, s)
    ensures SortedBy(less, Insert(less, x, s))
  {
    if s != [] && !less(x, s[0]) {
      var t := s[1..];
      var r := Insert(less, x, t);
      InsertSorted(less, x, t);
      forall j | 0 <= j < |r|
        ensures !less(r[j], s[0])
      {
        assert r[j] in multiset(r);
        if r[j] != x {
          assert r[j] in multiset(t);
          assert r[j] in t;
        }
      }
    } else if s != [] {
      var r := [x] + s;
      forall j | 0 <= j < |s|
        ensures !less(s[j], x)
      {
        assert !less(s[j], s[0]) && !less(s[0], x);
      }
    }
  }

  lemma {:induction false} SortSorts<T(!new)>(less: (T, T) -> bool, s: seq<T>)
    requires StrictWeakOrder(less)
    ensures SortedBy(less, Sort(less, s))
  {
    if s != [] {
      SortSorts(less, s[..|s| - 1]);
      InsertSorted(less, s[|s| - 1], Sort(less, s[..|s| - 1]));
    }
  }

  lemma RemoveAt<T>(s: seq<T>, i: nat)
    requires i < |s|
    ensures multiset(s[..i] + s[i + 1..]) == multiset(s) - multiset{s[i]}
  {
    assert s == s[..i] + [s[i]] + s[i + 1..];
  }

  lemma LeastIsFirst<T(!new)>(less: (T, T) -> bool, s: seq<T>, x: T)
    requires StrictWeakOrder(less) && SortedBy(less, s) && x in s
    ensures !less(x, s[0])
  {
    var i :| 0 <= i < |s| && s[i] == x;
    assert i == 0 || !less(s[i], s[0]);
  }

  lemma TailElements<T>(s: seq<T>)
    requires s != []
    ensures multiset(s[1..]) == multiset(s) - multiset{s[0]}
  {
    assert s == [s[0]] + s[1..];
  }

  lemma NonEmptyHasElement<T>(s: seq<T>)
    requires s != []
    ensures exists x :: x in s
  {
    assert s[0] in s;
  }

  lemma SortedTail<T(!new)>(less: (T, T) -> bool, s: seq<T>)
    requires SortedBy(less, s) && s != []
    ensures SortedBy(less, s[1..])
  {
    forall i, j | 0 <= i < j < |s| - 1
      ensures !less(s[1..][j], s[1..][i])
    {
      assert !less(s[j + 1], s[i + 1]);
    }
  }

  lemma TiesAreEqual<T(!new)>(less: (T, T) -> bool, x: T, y: T)
    requires Total(less) && !less(x, y) && !less(y, x)
    ensures x == y
  {
  }

  // Under a total order the sorted arrangement is unique.
  lemma {:induction false} SortedIsUnique<T(!new)>(less: (T, T) -> bool, a: seq<T>, b: seq<T>)
    requires StrictWeakOrder(less) && Total(less)
    requires SortedBy(less, a) && SortedBy(less, b) && multiset(a) == multiset(b)
    ensures a == b
    decreases |a|
  {
    hide StrictWeakOrder, Total, SortedBy;
    assert |a| == |multiset(a)| == |multiset(b)| == |b|;
    if a != [] {
      SameElements(a, b);
      LeastIsFirst(less, b, a[0]);
      LeastIsFirst(less, a, b[0]);
      TiesAreEqual(less, a[0], b[0]);
      SortedTail(less, a);
      SortedTail(less, b);
      TailElements(a);
      TailElements(b);
      SortedIsUnique(less, a[1..], b[1..]);
      assert a == [a[0]] + a[1..] && b == [b[0]] + b[1..];
    }
  }

  // ---- Distinct elements --------------------------------------------------------

  ghost predicate AllDistinct<T(!new)>(s: seq<T>) {
    forall i, j :: 0 <= i < j < |s| ==> s[i] != s[j]
  }

  lemma {:induction false} DistinctCount<T(!new)>(s: seq<T>, x: T)
    requires AllDistinct(s)
    ensures multiset(s)[x] <= 1
    decreases |s|
  {
    if s != [] {
      var n := |s| - 1;
      assert s == s[..n] + [s[n]];
      DistinctCount(s[..n], x);
      assert s[n] !in s[..n];
    }
  }

  lemma RepeatedCount<T(!new)>(s: seq<T>, i: nat, j: nat)
    requires i < j < |s| && s[i] == s[j]
    ensures multiset(s)[s[i]] >= 2
  {
    assert s == s[..i] + [s[i]] + s[i + 1..j] + [s[j]] + s[j + 1..];
  }

  lemma DistinctIsOrderFree<T(!new)>(a: seq<T>, b: seq<T>)
    requires AllDistinct(a) && multiset(a) == multiset(b)
    ensures AllDistinct(b)
  {
    forall i, j | 0 <= i < j < |b|
      ensures b[i] != b[j]
    {
      DistinctCount(a, b[i]);
      if b[i] == b[j] {
        RepeatedCount(b, i, j);
      }
    }
  }

  // Without ties between distinct elements, sorting distinct elements is strict.
  lemma SortDistinct<T(!new)>(less: (T, T) -> bool, s: seq<T>)
    requires StrictWeakOrder(less) && Total(less) && AllDistinct(s)
    ensures StrictlySorted(less, Sort(less, s))
    ensures forall x :: x in Sort(less, s) <==> x in s
  {
    var r := Sort(less, s);
    SortSorts(less, s);
    SameElements(s, r);
    DistinctIsOrderFree(s, r);
  }

  // ---- Sums over a sequence, in any order ------------------------------------------

  // All the bags of a sequence put together.
  ghost function BagSum<T(!new), U>(bag: T -> multiset<U>, s: seq<T>): multiset<U> {
    if s == [] then multiset{} else BagSum(bag, s[..|s| - 1]) + bag(s[|s| - 1])
  }

  lemma {:induction false} BagSumWithout<T(!new), U>(bag: T -> multiset<U>, s: seq<T>, i: nat)
    requires i < |s|
    ensures BagSum(bag, s) == BagSum(bag, s[..i] + s[i + 1..]) + bag(s[i])
    decreases |s|
  {
    var n := |s| - 1;
    var rest := s[..i] + s[i + 1..];
    if i < n {
      BagSumWithout(bag, s[..n], i);
      assert s[..n][..i] + s[..n][i + 1..] == rest[..n - 1];
      assert rest[n - 1] == s[n];
    } else {
      assert rest == s[..n];
    }
  }

  lemma {:induction false} BagSumIsOrderFree<T(!new), U>(bag: T -> multiset<U>, a: seq<T>, b: seq<T>)
    requires multiset(a) == multiset(b)
    ensures BagSum(bag, a) == BagSum(bag, b)
    decreases |a|
  {
    assert |a| == |multiset(a)| == |multiset(b)| == |b|;
    if a != [] {
      var n := |a| - 1;
      SameElements(a, b);
      assert a[n] in b;
      var i :| 0 <= i < |b| && b[i] == a[n];
      RemoveAt(a, n);
      RemoveAt(b, i);
      assert a[..n] + a[n + 1..] == a[..n];
      BagSumIsOrderFree(bag, a[..n], b[..i] + b[i + 1..]);
      BagSumWithout(bag, b, i);
    }
  }

  // ---- Strictly sorted sequences -----------------------------------------------

  ghost predicate StrictlySorted<T(!new)>(less: (T, T) -> bool, s: seq<T>) {
    forall i, j :: 0 <= i < j < |s| ==> less(s[i], s[j])
  }

  // A strictly sorted sequence is determined by its elements.
  lemma {:induction false} StrictlySortedIsUnique<T(!new)>(less: (T, T) -> bool, a: seq<T>, b: seq<T>)
    requires StrictWeakOrder(less)
    requires StrictlySorted(less, a) && StrictlySorted(less, b)
    requires forall x :: x in a <==> x in b
    ensures a == b
  {
    if a == [] {
      if b != [] {
        NonEmptyHasElement(b);
      }
    } else {
      assert a[0] in a && a[0] in b && b[0] in b && b[0] in a;
      assert a[0] == b[0] by {
        assert forall x :: x in b ==> x == b[0] || less(b[0], x);
        assert forall x :: x in a ==> x == a[0] || less(a[0], x);
      }
      forall x
        ensures x in a[1..] <==> x in b[1..]
      {
        HeadIsNotInTail(less, a, x);
        HeadIsNotInTail(less, b, x);
      }
      StrictlySortedIsUnique(less, a[1..], b[1..]);
      assert a == [a[0]] + a[1..] && b == [b[0]] + b[1..];
    }
  }

  lemma HeadIsNotInTail<T(!new)>(less: (T, T) -> bool, s: seq<T>, x: T)
    requires StrictWeakOrder(less) && StrictlySorted(less, s) && s != []
    ensures x in s[1..] <==> x in s && x != s[0]
  {
    assert s == [s[0]] + s[1..];
    if x in s[1..] {
      var i :| 0 <= i < |s| - 1 && s[1..][i] == x;
      assert less(s[0], s[i + 1]);
    }
  }

  lemma {:induction false} StrictlySortedSize<T(!new)>(less: (T, T) -> bool, s: seq<T>)
    requires StrictWeakOrder(less) && StrictlySorted(less, s)
    ensures |(set x | x in s)| == |s|
    decreases |s|
  {
    if s != [] {
      StrictlySortedSize(less, s[1..]);
      forall x
        ensures x in s <==> x in s[1..] || x == s[0]
        ensures x in s[1..] ==> x != s[0]
      {
        HeadIsNotInTail(less, s, x);
      }
      assert (set x | x in s) == (set x | x in s[1..]) + {s[0]};
    }
  }
}
