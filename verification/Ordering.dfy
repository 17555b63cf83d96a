// The byte order of strings, a total order, and the ascending arrangement of a set of keys.

module Ordering {
  import opened Sorting

  predicate StringLess(a: string, b: string) {
    if b == "" then false
    else if a == "" then true
    else a[0] < b[0] || (a[0] == b[0] && StringLess(a[1..], b[1..]))
  }

  lemma {:induction false} LessIsAsymmetric(a: string, b: string)
    ensures StringLess(a, b) ==> !StringLess(b, a)
  {
    if a != "" && b != "" {
      LessIsAsymmetric(a[1..], b[1..]);
    }
  }

  lemma {:induction false} NotLessIsTransitive(a: string, b: string, c: string)
    ensures !StringLess(a, b) && !StringLess(b, c) ==> !StringLess(a, c)
  {
    if a != "" && b != "" && c != "" {
      NotLessIsTransitive(a[1..], b[1..], c[1..]);
    }
  }

  lemma {:induction false} LessIsTotal(a: string, b: string)
    ensures a != b ==> StringLess(a, b) || StringLess(b, a)
  {
    if a != "" && b != "" {
      LessIsTotal(a[1..], b[1..]);
      assert a == [a[0]] + a[1..] && b == [b[0]] + b[1..];
    }
  }

  lemma StringLessIsTotalOrder()
    ensures StrictWeakOrder(StringLess) && Total(StringLess)
  {
    forall a, b
      ensures StringLess(a, b) ==> !StringLess(b, a)
      ensures a != b ==> StringLess(a, b) || StringLess(b, a)
    {
      LessIsAsymmetric(a, b);
      LessIsTotal(a, b);
    }
    forall a, b, c
      ensures !StringLess(a, b) && !StringLess(b, c) ==> !StringLess(a, c)
    {
      NotLessIsTransitive(a, b, c);
    }
  }

  lemma LessIsTransitive(a: string, b: string, c: string)
    requires StringLess(a, b) && StringLess(b, c)
    ensures StringLess(a, c)
  {
    LessIsAsymmetric(a, b);
    LessIsAsymmetric(b, c);
    NotLessIsTransitive(b, a, c);
    NotLessIsTransitive(c, b, a);
    NotLessIsTransitive(a, c, b);
    LessIsTotal(a, c);
  }

  // The first place where the texts differ decides; a beginning comes before what continues it.
  predicate FirstDifference(a: string, b: string, i: int) {
    0 <= i <= |a| && i < |b| && a[..i] == b[..i] && (i == |a| || a[i] < b[i])
  }

  lemma {:induction false} LessExactly(a: string, b: string)
    ensures StringLess(a, b) <==> exists i :: FirstDifference(a, b, i)
    decreases |a|
  {
    if b == "" {
    } else if a == "" {
      assert FirstDifference(a, b, 0);
    } else {
      LessExactly(a[1..], b[1..]);
      if a[0] < b[0] {
        assert FirstDifference(a, b, 0);
      }
      if a[0] == b[0] {
        forall i | FirstDifference(a[1..], b[1..], i)
          ensures FirstDifference(a, b, i + 1)
        {
          assert a[..i + 1] == [a[0]] + a[1..][..i] && b[..i + 1] == [b[0]] + b[1..][..i];
        }
      }
      forall i | FirstDifference(a, b, i)
        ensures a[0] < b[0] || (a[0] == b[0] && FirstDifference(a[1..], b[1..], i - 1))
      {
        if i > 0 {
          assert a[0] == a[..i][0] == b[..i][0] == b[0];
          assert a[1..][..i - 1] == a[..i][1..] && b[1..][..i - 1] == b[..i][1..];
        }
      }
    }
  }

  // Keys in ascending order, each once: the only such arrangement of a set.
  ghost predicate IsKeyOrder(keys: set<string>, order: seq<string>) {
    StrictlySorted(StringLess, order) && forall k :: k in order <==> k in keys
  }

  lemma KeyOrderIsUnique(keys: set<string>, a: seq<string>, b: seq<string>)
    requires IsKeyOrder(keys, a) && IsKeyOrder(keys, b)
    ensures a == b
  {
    StringLessIsTotalOrder();
    StrictlySortedIsUnique(StringLess, a, b);
  }

  lemma {:induction false} KeyOrderSize(keys: set<string>, order: seq<string>)
    requires IsKeyOrder(keys, order)
    ensures |order| == |keys|
  {
    StringLessIsTotalOrder();
    StrictlySortedSize(StringLess, order);
    assert (set k | k in order) == keys;
  }

  lemma {:induction false} SomeKeyOrder(keys: set<string>) returns (order: seq<string>)
    ensures IsKeyOrder(keys, order)
  {
    StringLessIsTotalOrder();
    if keys == {} {
      order := [];
    } else {
      var k :| k in keys;
      var rest := SomeKeyOrder(keys - {k});
      var all := rest + [k];
      assert AllDistinct(all) by {
        OrderedIsDistinct(rest);
        assert forall i :: 0 <= i < |rest| ==> rest[i] in rest;
      }
      order := Sort(StringLess, all);
      SortDistinct(StringLess, all);
      assert forall x :: x in all <==> x in rest || x == k;
    }
  }

  ghost function KeysBefore(keys: set<string>, k: string): set<string> {
    set x | x in keys && StringLess(x, k)
  }

  lemma EarlierKeys(keys: set<string>, order: seq<string>, j: nat, k: string)
    requires IsKeyOrder(keys, order) && j < |order|
    ensures k in order[..j] <==> k in KeysBefore(keys, order[j])
  {
    hide StringLess;
    if k in keys && StringLess(k, order[j]) {
      var i :| 0 <= i < |order| && order[i] == k;
      LessIsAsymmetric(order[i], order[j]);
      assert i < j && order[..j][i] == k;
    }
  }

  // The place of a key is the number of keys before it.
  lemma PlaceInOrder(keys: set<string>, order: seq<string>, j: nat)
    requires IsKeyOrder(keys, order) && j < |order|
    ensures |KeysBefore(keys, order[j])| == j
  {
    hide KeysBefore, StringLess;
    forall k
      ensures k in order[..j] <==> k in KeysBefore(keys, order[j])
    {
      EarlierKeys(keys, order, j, k);
    }
    KeyOrderSize(KeysBefore(keys, order[j]), order[..j]);
  }

  lemma OrderedIsDistinct(order: seq<string>)
    requires StrictlySorted(StringLess, order)
    ensures AllDistinct(order)
  {
    forall i, j | 0 <= i < j < |order|
      ensures order[i] != order[j]
    {
      LessIsAsymmetric(order[i], order[j]);
    }
  }

  // The keys in ascending order.
  ghost function KeyOrder(keys: set<string>): (order: seq<string>)
    ensures IsKeyOrder(keys, order)
  {
    assert exists o :: IsKeyOrder(keys, o) by {
      var o := SomeKeyOrder(keys);
    }
    var o :| IsKeyOrder(keys, o);
    o
  }

  // Collects the keys in any order, then sorts them.
  method SortKeys(keys: set<string>) returns (order: seq<string>)
    ensures IsKeyOrder(keys, order)
  {
    var collected: seq<string> := [];
    var left := keys;
    while left != {}
      invariant left <= keys
      invariant forall k :: k in collected <==> k in keys && k !in left
      invariant AllDistinct(collected)
      decreases left
    {
      var k :| k in left;
      left := left - {k};
      collected := collected + [k];
    }
    order := Sort(StringLess, collected);
    StringLessIsTotalOrder();
    SortDistinct(StringLess, collected);
  }
}
