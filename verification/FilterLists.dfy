/** Which filters pin a column to values, list values for it, or are made of equalities and IN sets
    only, by the leaves under their ANDs (vgi/filter_helpers.go, vgi/filter_helpers_typed.go). */
module FilterLists {
  import opened Wrappers
  import opened Collections
  import opened SqlLogic
  import opened FilterExpr
  import opened FilterPruning
  import opened FilterBounds
  import opened FilterValues

  /** An equality with a constant, or an IN set. */
  predicate EqualOrIn(f: Filter) {
    IsEquality(f) || f.InFilter?
  }

  function ValuesOf(f: Filter): seq<Value> {
    if f.Constant? then [f.value] else if f.InFilter? then f.values else []
  }

  // ---------------------------------------------------------------------------
  // Discrete values
  // ---------------------------------------------------------------------------

  predicate Branch(f: Filter, name: string) {
    ColumnName(f) == name && EqualOrIn(f)
  }

  /** An OR whose branches are all equalities or IN sets on the column, with a value among them. */
  predicate Branches(f: Filter, name: string) {
    && f.OrFilter?
    && (forall i :: 0 <= i < |f.children| ==> Branch(f.children[i], name))
    && exists i :: 0 <= i < |f.children| && Branch(f.children[i], name) && ValuesOf(f.children[i]) != []
  }

  ghost predicate InBranch(fs: seq<Filter>, v: Value) {
    exists i :: 0 <= i < |fs| && EqualOrIn(fs[i]) && v in ValuesOf(fs[i])
  }

  lemma {:induction false} BranchesPin(fs: seq<Filter>, name: string)
    ensures AllPins(fs, name).Some? <==> forall i :: 0 <= i < |fs| ==> Branch(fs[i], name)
    ensures AllPins(fs, name).Some? ==> forall v :: v in AllPins(fs, name).value <==> InBranch(fs, v)
  {
    if fs != [] {
      var n := |fs| - 1;
      BranchesPin(fs[..n], name);
      assert forall i :: 0 <= i < n ==> fs[..n][i] == fs[i];
      if AllPins(fs, name).Some? {
        forall v ensures v in AllPins(fs, name).value <==> InBranch(fs, v) { InOneMore(fs, v); }
      }
    }
  }

  lemma InOneMore(fs: seq<Filter>, v: Value)
    requires fs != []
    ensures var n := |fs| - 1;
      InBranch(fs, v) <==> InBranch(fs[..n], v) || (EqualOrIn(fs[n]) && v in ValuesOf(fs[n]))
  {
    var n := |fs| - 1;
    if InBranch(fs[..n], v) {
      var i :| 0 <= i < n && EqualOrIn(fs[..n][i]) && v in ValuesOf(fs[..n][i]);
      assert EqualOrIn(fs[i]) && v in ValuesOf(fs[i]);
    }
    if InBranch(fs, v) && !(EqualOrIn(fs[n]) && v in ValuesOf(fs[n])) {
      var i :| 0 <= i < |fs| && EqualOrIn(fs[i]) && v in ValuesOf(fs[i]);
      assert EqualOrIn(fs[..n][i]) && v in ValuesOf(fs[..n][i]);
    }
  }

  lemma SomeValue(fs: seq<Filter>, name: string)
    requires forall i :: 0 <= i < |fs| ==> Branch(fs[i], name)
    ensures AllPins(fs, name).Some?
    ensures AllPins(fs, name).value != [] <==> exists i :: 0 <= i < |fs| && Branch(fs[i], name) && ValuesOf(fs[i]) != []
  {
    BranchesPin(fs, name);
    var vs := AllPins(fs, name).value;
    if vs != [] {
      assert vs[0] in vs && InBranch(fs, vs[0]);
      var i :| 0 <= i < |fs| && EqualOrIn(fs[i]) && vs[0] in ValuesOf(fs[i]);
      assert Branch(fs[i], name) && ValuesOf(fs[i]) != [];
    }
    if i :| 0 <= i < |fs| && Branch(fs[i], name) && ValuesOf(fs[i]) != [] {
      assert ValuesOf(fs[i])[0] in ValuesOf(fs[i]);
      assert InBranch(fs, ValuesOf(fs[i])[0]);
    }
  }

  /** A filter has discrete values exactly when it is an equality, an IN set, or an OR of such on the
      column with a value among them; they are then its own values, or those of its branches. */
  lemma DiscreteExactly<K>(f: Filter, name: string, key: Value -> K)
    ensures DiscreteValues(f, name, key).Some? <==> EqualOrIn(f) || Branches(f, name)
    ensures EqualOrIn(f) ==> DiscreteValues(f, name, key) == Some(ValuesOf(f))
    ensures Branches(f, name) && Faithful(AllPins(f.children, name).value, key) ==>
      forall v :: v in DiscreteValues(f, name, key).value <==> InBranch(f.children, v)
  {
    if f.OrFilter? {
      BranchesPin(f.children, name);
      if forall i :: 0 <= i < |f.children| ==> Branch(f.children[i], name) {
        SomeValue(f.children, name);
        if Faithful(AllPins(f.children, name).value, key) { DedupeKeeps(AllPins(f.children, name).value, key); }
      }
    }
  }

  predicate HasValues(f: Filter, name: string) {
    EqualOrIn(f) || Branches(f, name)
  }

  predicate FirstWithValues(fs: seq<Filter>, name: string, i: nat) {
    i < |fs| && HasValues(fs[i], name) && forall j :: 0 <= j < i ==> !HasValues(fs[j], name)
  }

  /** The values of a column are those of the first collected filter that has any. */
  lemma {:induction false} FirstDiscreteExactly<K>(fs: seq<Filter>, name: string, key: Value -> K)
    ensures FirstDiscrete(fs, name, key).None? <==> forall i :: 0 <= i < |fs| ==> !HasValues(fs[i], name)
    ensures forall i: nat :: FirstWithValues(fs, name, i) ==>
      FirstDiscrete(fs, name, key) == DiscreteValues(fs[i], name, key)
  {
    if fs != [] {
      DiscreteExactly(fs[0], name, key);
      FirstDiscreteExactly(fs[1..], name, key);
      assert forall i :: 0 < i < |fs| ==> fs[i] == fs[1..][i - 1];
      forall i: nat | FirstWithValues(fs, name, i)
        ensures FirstDiscrete(fs, name, key) == DiscreteValues(fs[i], name, key)
      {
        if i > 0 { assert FirstWithValues(fs[1..], name, i - 1); }
      }
    }
  }

  predicate DistinctKeys<K(==)>(vs: seq<Value>, key: Value -> K) {
    forall i, j :: 0 <= i < j < |vs| ==> key(vs[i]) != key(vs[j])
  }

  /** One value is kept for each key, one that was listed. */
  lemma {:induction false} DedupedExactly<K>(vs: seq<Value>, key: Value -> K)
    ensures DistinctKeys(Dedupe(vs, key), key) && Keys(Dedupe(vs, key), key) == Keys(vs, key)
    ensures forall v :: v in Dedupe(vs, key) ==> v in vs
  {
    if vs != [] {
      var n := |vs| - 1;
      DedupedExactly(vs[..n], key);
      KeysOneMore(vs[..n], vs[n], key);
      assert vs[..n] + [vs[n]] == vs;
      var before := Dedupe(vs[..n], key);
      KeysOneMore(before, vs[n], key);
      if key(vs[n]) !in Keys(before, key) {
        forall i | 0 <= i < |before| ensures key(before[i]) != key(vs[n]) { assert before[i] in before; }
      }
    }
  }

  lemma KeysOneMore<K>(vs: seq<Value>, v: Value, key: Value -> K)
    ensures Keys(vs + [v], key) == Keys(vs, key) + {key(v)}
  {
    forall k ensures k in Keys(vs + [v], key) <==> k in Keys(vs, key) + {key(v)} {
      if k in Keys(vs, key) {
        var w :| w in vs && key(w) == k;
        assert w in vs + [v];
      }
      assert v in vs + [v];
    }
  }

  /** What is kept of the first values is kept, so it is the first value of each key. */
  lemma {:induction false} FirstIsKept<K>(vs: seq<Value>, key: Value -> K, n: nat)
    requires n <= |vs|
    ensures Dedupe(vs[..n], key) <= Dedupe(vs, key)
  {
    if n < |vs| {
      FirstIsKept(vs[..|vs| - 1], key, n);
      assert vs[..|vs| - 1][..n] == vs[..n];
    } else {
      assert vs[..n] == vs;
    }
  }

  // ---------------------------------------------------------------------------
  // Listed values
  // ---------------------------------------------------------------------------

  /** What is left of a filter when its ANDs are taken apart. */
  function Conjuncts(f: Filter): seq<Filter>
    decreases f, 1
  {
    if f.AndFilter? then AllConjuncts(f.children) else [f]
  }

  function AllConjuncts(fs: seq<Filter>): seq<Filter>
    decreases fs, 0
  {
    if fs == [] then [] else Conjuncts(fs[0]) + AllConjuncts(fs[1..])
  }

  /** An equality with a value of the requested type, or an IN set all of whose values are. */
  predicate ListsValues(f: Filter, fits: Value -> bool) {
    || (IsEquality(f) && !f.value.Null? && fits(f.value))
    || (f.InFilter? && forall i :: 0 <= i < |f.values| ==> f.values[i].Null? || fits(f.values[i]))
  }

  predicate AllListValues(fs: seq<Filter>, fits: Value -> bool) {
    forall i :: 0 <= i < |fs| ==> ListsValues(fs[i], fits)
  }

  /** The non-null values along the conjuncts. */
  function ValuesAlong(fs: seq<Filter>): seq<Value> {
    if fs == [] then [] else NonNull(ValuesOf(fs[0])) + ValuesAlong(fs[1..])
  }

  lemma {:induction false} AlongBoth(a: seq<Filter>, b: seq<Filter>)
    ensures ValuesAlong(a + b) == ValuesAlong(a) + ValuesAlong(b)
  {
    if a == [] {
      assert a + b == b;
    } else {
      AlongBoth(a[1..], b);
      assert (a + b)[0] == a[0] && (a + b)[1..] == a[1..] + b;
      Regroup(NonNull(ValuesOf(a[0])), ValuesAlong(a[1..]), ValuesAlong(b));
    }
  }

  lemma ListValuesSplits(a: seq<Filter>, b: seq<Filter>, fits: Value -> bool)
    ensures AllListValues(a + b, fits) <==> AllListValues(a, fits) && AllListValues(b, fits)
  {
    assert forall i :: 0 <= i < |a| ==> (a + b)[i] == a[i];
    assert forall i :: 0 <= i < |b| ==> (a + b)[|a| + i] == b[i];
  }

  lemma OneConjunct(f: Filter, fits: Value -> bool)
    requires !f.AndFilter?
    ensures Listed(f, fits).Some? <==> AllListValues([f], fits)
    ensures Listed(f, fits).Some? ==> EqualOrIn(f) && Listed(f, fits).value == ValuesAlong([f])
  {
    assert [f][0] == f && [f][1..] == [];
    if f.Constant? {
      assert [f.value][..0] == [];
      assert NonNull([f.value]) == if f.value.Null? then [] else [f.value];
    }
  }

  ghost predicate ListedAlong(listed: Option<seq<Value>>, conjuncts: seq<Filter>, fits: Value -> bool) {
    && (listed.Some? <==> AllListValues(conjuncts, fits))
    && (listed.Some? ==> listed.value == ValuesAlong(conjuncts))
  }

  /** A filter lists values exactly when all its conjuncts do, and lists what they list, in order and
      without NULLs. */
  lemma {:induction false} ListedExactly(f: Filter, fits: Value -> bool)
    ensures ListedAlong(Listed(f, fits), Conjuncts(f), fits)
    decreases f, 1
  {
    if f.AndFilter? {
      AllListedExactly(f.children, fits);
    } else {
      OneConjunct(f, fits);
    }
  }

  lemma {:induction false} AllListedExactly(fs: seq<Filter>, fits: Value -> bool)
    ensures ListedAlong(AllListed(fs, fits), AllConjuncts(fs), fits)
    decreases fs, 0
  {
    if fs != [] {
      ListedExactly(fs[0], fits);
      AllListedExactly(fs[1..], fits);
      ListValuesSplits(Conjuncts(fs[0]), AllConjuncts(fs[1..]), fits);
      if AllListed(fs, fits).Some? { AlongBoth(Conjuncts(fs[0]), AllConjuncts(fs[1..])); }
    }
  }

  lemma {:induction false} NonNullExactly(vs: seq<Value>, v: Value)
    ensures v in NonNull(vs) <==> v in vs && !v.Null?
  {
    if vs != [] {
      NonNullExactly(vs[..|vs| - 1], v);
      assert vs == vs[..|vs| - 1] + [vs[|vs| - 1]];
    }
  }

  /** Equalities and IN sets on the allowed columns only: every conjunct is one. */
  lemma {:induction false} OnlyEqualOrInExactly(f: Filter, allowed: set<string>)
    ensures OnlyEqualOrInOn(f, allowed) <==> AllOn(Conjuncts(f), allowed)
    decreases f, 1
  {
    if f.AndFilter? {
      OnlyEqualOrInAll(f.children, allowed);
    } else {
      assert Conjuncts(f)[0] == f;
    }
  }

  predicate AllOn(fs: seq<Filter>, allowed: set<string>) {
    forall i :: 0 <= i < |fs| ==> EqualOrIn(fs[i]) && fs[i].column in allowed
  }

  lemma AllOnSplits(a: seq<Filter>, b: seq<Filter>, allowed: set<string>)
    ensures AllOn(a + b, allowed) <==> AllOn(a, allowed) && AllOn(b, allowed)
  {
    assert forall i :: 0 <= i < |a| ==> (a + b)[i] == a[i];
    assert forall i :: 0 <= i < |b| ==> (a + b)[|a| + i] == b[i];
  }

  lemma {:induction false} OnlyEqualOrInAll(fs: seq<Filter>, allowed: set<string>)
    ensures (forall i :: 0 <= i < |fs| ==> OnlyEqualOrInOn(fs[i], allowed)) <==> AllOn(AllConjuncts(fs), allowed)
    decreases fs, 0
  {
    if fs != [] {
      OnlyEqualOrInExactly(fs[0], allowed);
      OnlyEqualOrInAll(fs[1..], allowed);
      AllOnSplits(Conjuncts(fs[0]), AllConjuncts(fs[1..]), allowed);
      assert forall i :: 0 < i < |fs| ==> fs[i] == fs[1..][i - 1];
    }
  }

  predicate NoneTwice(vs: seq<Value>) {
    forall i, j :: 0 <= i < j < |vs| ==> vs[i] != vs[j]
  }

  /** Adding values keeps the list, adds the new ones behind it and none twice. */
  lemma {:induction false} AddedOnce(out: seq<Value>, vs: seq<Value>)
    requires NoneTwice(out)
    ensures NoneTwice(AddAll(out, vs)) && out <= AddAll(out, vs)
  {
    if vs != [] { AddedOnce(out, vs[..|vs| - 1]); }
  }

  /** What is listed for a column: the non-null values of the conjuncts of its filters, each once, if
      there is one and all conjuncts list values. */
  lemma EqualOrInExactly(filters: seq<Filter>, column: string, fits: Value -> bool)
    ensures var fs := OnColumn(filters, column); var vs := AllListed(fs, fits);
      && (vs.Some? <==> AllListValues(AllConjuncts(fs), fits))
      && (vs.Some? ==> NoneTwice(AddAll([], vs.value)))
      && (vs.Some? ==> forall v :: v in AddAll([], vs.value) <==> v in ValuesAlong(AllConjuncts(fs)))
  {
    var fs := OnColumn(filters, column);
    AllListedExactly(fs, fits);
    if AllListed(fs, fits).Some? {
      AddedOnce([], AllListed(fs, fits).value);
      AddAllMembers([], AllListed(fs, fits).value);
    }
  }
}
