/**
  Small facts about sequences, sets and multisets that several modules use.
 */
module Collections {

  lemma Regroup<T>(a: seq<T>, b: seq<T>, c: seq<T>)
    ensures a + (b + c) == (a + b) + c
  {
  }

  /** Some element of a set, as a Go map is walked: in no particular order. */
  method AnyOf<T(==)>(s: set<T>) returns (x: T)
    requires s != {}
    ensures x in s
  {
    x :| x in s;
  }

  lemma SameSize<T>(a: set<T>, b: set<T>)
    requires a <= b && |a| == |b|
    ensures a == b
  {
    assert b == a + (b - a);
  }

  lemma Cancel<T>(a: multiset<T>, b: multiset<T>, m: multiset<T>)
    requires a + m == b + m
    ensures a == b
  {
    assert a == (a + m) - m;
    assert b == (b + m) - m;
  }
}
