/**
  `slices.SortStableFunc` as a function: insertion sort by a strict order
  `before`, and what the catalog code relies on.
 */
module StableSort {
  import opened Collections

  function Insert<T>(before: (T, T) -> bool, xs: seq<T>, x: T): seq<T> {
    if xs == [] || !before(x, xs[|xs| - 1]) then xs + [x]
    else Insert(before, xs[..|xs| - 1], x) + [xs[|xs| - 1]]
  }

  function Sort<T>(before: (T, T) -> bool, xs: seq<T>): seq<T> {
    if xs == [] then [] else Insert(before, Sort(before, xs[..|xs| - 1]), xs[|xs| - 1])
  }

  ghost predicate Ordered<T>(before: (T, T) -> bool, xs: seq<T>) {
    forall i, j :: 0 <= i < j < |xs| ==> !before(xs[j], xs[i])
  }

  ghost predicate Transitive<T(!new)>(before: (T, T) -> bool) {
    forall a, b, c :: !before(b, a) && !before(c, b) ==> !before(c, a)
  }

  ghost predicate Asymmetric<T(!new)>(before: (T, T) -> bool) {
    forall a, b :: before(a, b) ==> !before(b, a)
  }

  /** A strict weak order, as `SortStableFunc` demands of its callers. */
  ghost predicate WeakOrder<T(!new)>(before: (T, T) -> bool) {
    Transitive(before) && Asymmetric(before)
  }

  /** Sorting an ordered list changes nothing. */
  lemma {:induction false} OrderedIsKept<T>(before: (T, T) -> bool, xs: seq<T>)
    requires Ordered(before, xs)
    ensures Sort(before, xs) == xs
  {
    if xs != [] {
      OrderedIsKept(before, xs[..|xs| - 1]);
      assert xs == xs[..|xs| - 1] + [xs[|xs| - 1]];
    }
  }

  lemma {:induction false} InsertKeepsElements<T>(before: (T, T) -> bool, xs: seq<T>, x: T)
    ensures multiset(Insert(before, xs, x)) == multiset(xs) + multiset{x}
  {
    if xs != [] && before(x, xs[|xs| - 1]) {
      InsertKeepsElements(before, xs[..|xs| - 1], x);
      assert xs == xs[..|xs| - 1] + [xs[|xs| - 1]];
    }
  }

  lemma {:induction false} SortKeepsElements<T>(before: (T, T) -> bool, xs: seq<T>)
    ensures multiset(Sort(before, xs)) == multiset(xs)
  {
    if xs != [] {
      SortKeepsElements(before, xs[..|xs| - 1]);
      InsertKeepsElements(before, Sort(before, xs[..|xs| - 1]), xs[|xs| - 1]);
      assert xs == xs[..|xs| - 1] + [xs[|xs| - 1]];
    }
  }

  ghost predicate NoneAfter<T>(before: (T, T) -> bool, xs: seq<T>, last: T) {
    forall i :: 0 <= i < |xs| ==> !before(last, xs[i])
  }

  lemma SnocOrdered<T>(before: (T, T) -> bool, xs: seq<T>, last: T)
    requires Ordered(before, xs) && NoneAfter(before, xs, last)
    ensures Ordered(before, xs + [last])
  {
  }

  lemma {:induction false} InsertNoneAfter<T>(before: (T, T) -> bool, xs: seq<T>, x: T, last: T)
    requires NoneAfter(before, xs, last) && !before(last, x)
    ensures NoneAfter(before, Insert(before, xs, x), last)
  {
    if xs != [] && before(x, xs[|xs| - 1]) {
      InsertNoneAfter(before, xs[..|xs| - 1], x, last);
    }
  }

  lemma AllBelow<T(!new)>(before: (T, T) -> bool, xs: seq<T>, x: T)
    requires Transitive(before) && Ordered(before, xs)
    requires xs == [] || !before(x, xs[|xs| - 1])
    ensures NoneAfter(before, xs, x)
  {
    forall i | 0 <= i < |xs|
      ensures !before(x, xs[i])
    {
      if i < |xs| - 1 {
        assert !before(xs[|xs| - 1], xs[i]);
      }
    }
  }

  lemma {:induction false} InsertOrders<T(!new)>(before: (T, T) -> bool, xs: seq<T>, x: T)
    requires WeakOrder(before) && Ordered(before, xs)
    ensures Ordered(before, Insert(before, xs, x))
  {
    if xs == [] || !before(x, xs[|xs| - 1]) {
      AllBelow(before, xs, x);
      SnocOrdered(before, xs, x);
    } else {
      var init, last := xs[..|xs| - 1], xs[|xs| - 1];
      InsertOrders(before, init, x);
      assert NoneAfter(before, init, last);
      InsertNoneAfter(before, init, x, last);
      SnocOrdered(before, Insert(before, init, x), last);
    }
  }

  /** The result is ordered. */
  lemma {:induction false} SortOrders<T(!new)>(before: (T, T) -> bool, xs: seq<T>)
    requires WeakOrder(before)
    ensures Ordered(before, Sort(before, xs))
  {
    if xs != [] {
      SortOrders(before, xs[..|xs| - 1]);
      InsertOrders(before, Sort(before, xs[..|xs| - 1]), xs[|xs| - 1]);
    }
  }

  ghost predicate TiesAreEqual<T>(before: (T, T) -> bool, xs: seq<T>) {
    forall a, b :: a in xs && b in xs && !before(a, b) && !before(b, a) ==> a == b
  }

  lemma LastIsLast<T>(before: (T, T) -> bool, xs: seq<T>, x: T)
    requires Ordered(before, xs) && AsymmetricOn(before, xs) && x in multiset(xs)
    ensures !before(xs[|xs| - 1], x)
  {
    var i :| 0 <= i < |xs| && xs[i] == x;
    if i == |xs| - 1 {
      assert before(x, x) ==> !before(x, x);
    }
  }

  ghost predicate AsymmetricOn<T>(before: (T, T) -> bool, xs: seq<T>) {
    forall a, b :: a in xs && b in xs && before(a, b) ==> !before(b, a)
  }

  lemma SnocBag<T>(xs: seq<T>, x: T)
    ensures multiset(xs + [x]) == multiset(xs) + multiset{x}
  {
  }

  lemma LastsAgree<T(!new)>(before: (T, T) -> bool, xs: seq<T>, ys: seq<T>)
    requires Asymmetric(before) && TiesAreEqual(before, xs) && xs != [] && ys != []
    requires Ordered(before, xs) && Ordered(before, ys) && multiset(xs) == multiset(ys)
    ensures xs[|xs| - 1] == ys[|ys| - 1]
  {
    var x, y := xs[|xs| - 1], ys[|ys| - 1];
    assert x in multiset(xs) && y in multiset(ys);
    LastIsLast(before, xs, y);
    LastIsLast(before, ys, x);
    assert x in xs && y in xs;
  }

  lemma InitsAgree<T>(xs: seq<T>, ys: seq<T>)
    requires xs != [] && ys != [] && multiset(xs) == multiset(ys) && xs[|xs| - 1] == ys[|ys| - 1]
    ensures multiset(xs[..|xs| - 1]) == multiset(ys[..|ys| - 1])
    ensures xs == xs[..|xs| - 1] + [xs[|xs| - 1]] && ys == ys[..|ys| - 1] + [xs[|xs| - 1]]
  {
    var a, b, x := xs[..|xs| - 1], ys[..|ys| - 1], xs[|xs| - 1];
    assert xs == a + [x] && ys == b + [x];
    SnocBag(a, x);
    SnocBag(b, x);
    Cancel(multiset(a), multiset(b), multiset{x});
  }

  /** Without ties, the elements alone fix the sorted list: it does not matter
      in which order they were collected. */
  lemma {:induction false} OrderedIsUnique<T(!new)>(before: (T, T) -> bool, xs: seq<T>, ys: seq<T>)
    requires Asymmetric(before) && TiesAreEqual(before, xs)
    requires Ordered(before, xs) && Ordered(before, ys) && multiset(xs) == multiset(ys)
    ensures xs == ys
  {
    assert |xs| == |multiset(xs)| == |multiset(ys)| == |ys|;
    if xs != [] {
      LastsAgree(before, xs, ys);
      InitsAgree(xs, ys);
      OrderedIsUnique(before, xs[..|xs| - 1], ys[..|ys| - 1]);
    }
  }

  predicate Distinct<T, K(==)>(key: T -> K, xs: seq<T>) {
    forall i, j :: 0 <= i < j < |xs| ==> key(xs[i]) != key(xs[j])
  }

  predicate Differs<T, K(==)>(key: T -> K, xs: seq<T>, x: T) {
    forall i :: 0 <= i < |xs| ==> key(xs[i]) != key(x)
  }

  lemma {:induction false} InsertDiffers<T, K>(before: (T, T) -> bool, key: T -> K, xs: seq<T>, x: T, other: T)
    requires Differs(key, xs, other) && key(x) != key(other)
    ensures Differs(key, Insert(before, xs, x), other)
  {
    if xs != [] && before(x, xs[|xs| - 1]) {
      InsertDiffers(before, key, xs[..|xs| - 1], x, other);
    }
  }

  lemma {:induction false} InsertKeepsDistinct<T, K>(before: (T, T) -> bool, key: T -> K, xs: seq<T>, x: T)
    requires Distinct(key, xs) && Differs(key, xs, x)
    ensures Distinct(key, Insert(before, xs, x))
  {
    if xs != [] && before(x, xs[|xs| - 1]) {
      var init, last := xs[..|xs| - 1], xs[|xs| - 1];
      InsertKeepsDistinct(before, key, init, x);
      assert Differs(key, init, last);
      InsertDiffers(before, key, init, x, last);
    }
  }

  lemma {:induction false} SortDiffers<T, K>(before: (T, T) -> bool, key: T -> K, xs: seq<T>, other: T)
    requires Differs(key, xs, other)
    ensures Differs(key, Sort(before, xs), other)
  {
    if xs != [] {
      SortDiffers(before, key, xs[..|xs| - 1], other);
      InsertDiffers(before, key, Sort(before, xs[..|xs| - 1]), xs[|xs| - 1], other);
    }
  }

  /** Sorting keeps keys apart. */
  lemma {:induction false} SortKeepsDistinct<T, K>(before: (T, T) -> bool, key: T -> K, xs: seq<T>)
    requires Distinct(key, xs)
    ensures Distinct(key, Sort(before, xs))
  {
    if xs != [] {
      var init, last := xs[..|xs| - 1], xs[|xs| - 1];
      SortKeepsDistinct(before, key, init);
      assert Differs(key, init, last);
      SortDiffers(before, key, init, last);
      InsertKeepsDistinct(before, key, Sort(before, init), last);
    }
  }
}
