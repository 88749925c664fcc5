/** Which filters a column's helpers look at, by where they stand in the filter list, and when the
    column has bounds at all (vgi/filter_helpers.go, `collectColumnFilters`, `GetColumnBounds`). */
module FilterCollect {
  import opened Wrappers
  import opened SqlLogic
  import opened FilterExpr
  import opened FilterPruning
  import opened FilterBounds

  // ---------------------------------------------------------------------------
  // Places
  // ---------------------------------------------------------------------------

  /** A filter of the list, or a direct child of one. */
  datatype Place = Top(i: nat) | Under(i: nat, j: nat)

  predicate Exists(filters: seq<Filter>, p: Place) {
    p.i < |filters| && (p.Under? ==> filters[p.i].AndFilter? && p.j < |filters[p.i].children|)
  }

  function FilterAt(filters: seq<Filter>, p: Place): Filter
    requires Exists(filters, p)
  {
    if p.Top? then filters[p.i] else filters[p.i].children[p.j]
  }

  /** A filter on the column that is no AND, or a direct child on the column of an AND on the column. */
  predicate Taken(filters: seq<Filter>, name: string, p: Place) {
    && Exists(filters, p)
    && ColumnName(filters[p.i]) == name && ColumnName(FilterAt(filters, p)) == name
    && (p.Top? ==> !filters[p.i].AndFilter?)
  }

  predicate Precedes(p: Place, q: Place) {
    p.i < q.i || (p.i == q.i && p.Under? && q.Under? && p.j < q.j)
  }

  ghost predicate InOrder(places: seq<Place>) {
    forall a, b :: 0 <= a < b < |places| ==> Precedes(places[a], places[b])
  }

  /** The filters are those at the places. */
  ghost predicate StandAt(filters: seq<Filter>, places: seq<Place>, fs: seq<Filter>) {
    && |fs| == |places|
    && forall a :: 0 <= a < |fs| ==> Exists(filters, places[a]) && fs[a] == FilterAt(filters, places[a])
  }

  /** The places are the taken ones. */
  ghost predicate AllTaken(filters: seq<Filter>, name: string, places: seq<Place>) {
    forall p :: p in places <==> Taken(filters, name, p)
  }

  ghost predicate CollectedAt(filters: seq<Filter>, name: string, places: seq<Place>) {
    InOrder(places) && AllTaken(filters, name, places) && StandAt(filters, places, Collect(filters, name))
  }

  ghost predicate Increasing(js: seq<nat>) {
    forall a, b :: 0 <= a < b < |js| ==> js[a] < js[b]
  }

  predicate IsOnColumn(fs: seq<Filter>, name: string, j: nat) {
    j < |fs| && ColumnName(fs[j]) == name
  }

  ghost predicate AllOnColumn(fs: seq<Filter>, name: string, js: seq<nat>) {
    forall j: nat :: j in js <==> IsOnColumn(fs, name, j)
  }

  ghost predicate PickedAt(fs: seq<Filter>, js: seq<nat>, picked: seq<Filter>) {
    |picked| == |js| && forall a :: 0 <= a < |js| ==> js[a] < |fs| && picked[a] == fs[js[a]]
  }

  ghost predicate OnColumnAt(fs: seq<Filter>, name: string, js: seq<nat>) {
    Increasing(js) && AllOnColumn(fs, name, js) && PickedAt(fs, js, OnColumn(fs, name))
  }

  lemma PickOneMore(fs: seq<Filter>, name: string, before: seq<nat>)
    requires fs != [] && OnColumnAt(fs[..|fs| - 1], name, before) && ColumnName(fs[|fs| - 1]) == name
    ensures OnColumnAt(fs, name, before + [|fs| - 1])
  {
    var n := |fs| - 1;
    var js := before + [n];
    forall j: nat ensures j in js <==> IsOnColumn(fs, name, j) {
      assert j in before <==> IsOnColumn(fs[..n], name, j);
    }
    forall a, b | 0 <= a < b < |js| ensures js[a] < js[b] {
      if b == |before| { assert before[a] in before; }
    }
  }

  lemma PickNoMore(fs: seq<Filter>, name: string, before: seq<nat>)
    requires fs != [] && OnColumnAt(fs[..|fs| - 1], name, before) && ColumnName(fs[|fs| - 1]) != name
    ensures OnColumnAt(fs, name, before)
  {
    var n := |fs| - 1;
    forall j: nat ensures j in before <==> IsOnColumn(fs, name, j) {
      assert j in before <==> IsOnColumn(fs[..n], name, j);
    }
    OnColumnNoMore(fs, name);
    PickedInMore(fs, before, OnColumn(fs[..n], name));
  }

  lemma OnColumnNoMore(fs: seq<Filter>, name: string)
    requires fs != [] && ColumnName(fs[|fs| - 1]) != name
    ensures OnColumn(fs, name) == OnColumn(fs[..|fs| - 1], name)
  {
  }

  lemma PickedInMore(fs: seq<Filter>, js: seq<nat>, picked: seq<Filter>)
    requires fs != [] && PickedAt(fs[..|fs| - 1], js, picked)
    ensures PickedAt(fs, js, picked)
  {
  }

  /** The children on the column, by their indices. */
  lemma {:induction false} ChildrenOnColumn(fs: seq<Filter>, name: string) returns (js: seq<nat>)
    ensures OnColumnAt(fs, name, js)
  {
    if fs == [] {
      js := [];
    } else {
      var before := ChildrenOnColumn(fs[..|fs| - 1], name);
      if ColumnName(fs[|fs| - 1]) == name {
        PickOneMore(fs, name, before);
        js := before + [|fs| - 1];
      } else {
        PickNoMore(fs, name, before);
        js := before;
      }
    }
  }

  function Unders(i: nat, js: seq<nat>): (ps: seq<Place>)
    ensures |ps| == |js| && forall a :: 0 <= a < |js| ==> ps[a] == Under(i, js[a])
  {
    seq(|js|, a requires 0 <= a < |js| => Under(i, js[a]))
  }

  /** The places of the last filter of the list. */
  ghost predicate LastPlaces(filters: seq<Filter>, name: string, more: seq<Place>)
    requires filters != []
  {
    var n := |filters| - 1;
    && InOrder(more)
    && (forall p :: p in more <==> p.i == n && Taken(filters, name, p))
    && StandAt(filters, more, CollectOne(filters[n], name))
  }

  lemma PlacesUnder(filters: seq<Filter>, name: string, js: seq<nat>)
    requires filters != [] && ColumnName(filters[|filters| - 1]) == name && filters[|filters| - 1].AndFilter?
    requires OnColumnAt(filters[|filters| - 1].children, name, js)
    ensures LastPlaces(filters, name, Unders(|filters| - 1, js))
  {
    var n := |filters| - 1;
    var more := Unders(n, js);
    var children := filters[n].children;
    forall p: Place | p in more ensures p.i == n && Taken(filters, name, p) {
      var a :| 0 <= a < |more| && more[a] == p;
      assert js[a] in js && IsOnColumn(children, name, js[a]);
    }
    forall p: Place | p.i == n && Taken(filters, name, p) ensures p in more {
      assert IsOnColumn(children, name, p.j);
      var a :| 0 <= a < |js| && js[a] == p.j;
      assert more[a] == p;
    }
  }

  lemma PlacesOfLast(filters: seq<Filter>, name: string) returns (more: seq<Place>)
    requires filters != []
    ensures LastPlaces(filters, name, more)
  {
    var n := |filters| - 1;
    if ColumnName(filters[n]) != name {
      more := [];
    } else if filters[n].AndFilter? {
      var js := ChildrenOnColumn(filters[n].children, name);
      PlacesUnder(filters, name, js);
      more := Unders(n, js);
    } else {
      more := [Top(n)];
    }
  }

  lemma TakenInPrefix(filters: seq<Filter>, name: string, p: Place)
    requires filters != []
    ensures Taken(filters[..|filters| - 1], name, p) <==> Taken(filters, name, p) && p.i < |filters| - 1
  {
  }

  lemma TakenOneMore(filters: seq<Filter>, name: string, before: seq<Place>, more: seq<Place>)
    requires filters != [] && AllTaken(filters[..|filters| - 1], name, before) && LastPlaces(filters, name, more)
    ensures AllTaken(filters, name, before + more)
  {
    forall p ensures p in before + more <==> Taken(filters, name, p) {
      TakenInPrefix(filters, name, p);
    }
  }

  lemma OrderOneMore(filters: seq<Filter>, name: string, before: seq<Place>, more: seq<Place>)
    requires filters != [] && AllTaken(filters[..|filters| - 1], name, before) && InOrder(before)
    requires LastPlaces(filters, name, more)
    ensures InOrder(before + more)
  {
    var all := before + more;
    forall a, b | 0 <= a < b < |all| ensures Precedes(all[a], all[b]) {
      if a < |before| <= b {
        assert before[a] in before && more[b - |before|] in more;
        TakenInPrefix(filters, name, before[a]);
      }
    }
  }

  lemma StandOneMore(filters: seq<Filter>, before: seq<Place>, fs: seq<Filter>, more: seq<Place>, gs: seq<Filter>)
    requires filters != [] && StandAt(filters[..|filters| - 1], before, fs) && StandAt(filters, more, gs)
    ensures StandAt(filters, before + more, fs + gs)
  {
    var all := before + more;
    forall a | 0 <= a < |all| ensures Exists(filters, all[a]) && (fs + gs)[a] == FilterAt(filters, all[a]) {
      if a < |before| { assert all[a] == before[a]; }
    }
  }

  /** The collected filters are those at the taken places, in the order of the places and each as often
      as it stands there. */
  lemma {:induction false} CollectedExactly(filters: seq<Filter>, name: string) returns (places: seq<Place>)
    ensures CollectedAt(filters, name, places)
  {
    places := [];
    if filters != [] {
      var before := CollectedExactly(filters[..|filters| - 1], name);
      var more := PlacesOfLast(filters, name);
      TakenOneMore(filters, name, before, more);
      OrderOneMore(filters, name, before, more);
      StandOneMore(filters, before, Collect(filters[..|filters| - 1], name), more,
                   CollectOne(filters[|filters| - 1], name));
      places := before + more;
    }
  }

  /** A filter is collected exactly when it stands at a taken place. */
  lemma CollectedMembers(filters: seq<Filter>, name: string, f: Filter)
    ensures f in Collect(filters, name) <==> exists p :: Taken(filters, name, p) && FilterAt(filters, p) == f
  {
    var places := CollectedExactly(filters, name);
    var fs := Collect(filters, name);
    if f in fs {
      var a :| 0 <= a < |fs| && fs[a] == f;
      assert places[a] in places && FilterAt(filters, places[a]) == f;
    }
    if p :| Taken(filters, name, p) && FilterAt(filters, p) == f {
      assert p in places;
      var a :| 0 <= a < |places| && places[a] == p;
      assert fs[a] == f;
    }
  }

  // ---------------------------------------------------------------------------
  // When there are bounds
  // ---------------------------------------------------------------------------

  predicate HasValue(values: seq<Value>) {
    exists i :: 0 <= i < |values| && !values[i].Null?
  }

  /** The filter bounds its column: a comparison other than <>, or an IN set with a value. */
  predicate Bounding(f: Filter) {
    (f.Constant? && f.op != NE) || (f.InFilter? && HasValue(f.values))
  }

  lemma {:induction false} SetHasBounds(values: seq<Value>, toFloat: ToFloat)
    ensures var r := ArrayBounds(values, toFloat);
      (r.lo.Some? <==> HasValue(values)) && (r.hi.Some? <==> HasValue(values))
  {
    if values != [] {
      var n := |values| - 1;
      SetHasBounds(values[..n], toFloat);
      if HasValue(values[..n]) {
        var i :| 0 <= i < n && !values[..n][i].Null?;
        assert !values[i].Null?;
      }
      if HasValue(values) && values[n].Null? {
        var i :| 0 <= i < |values| && !values[i].Null?;
        assert !values[..n][i].Null?;
      }
    }
  }

  predicate Unbounded(p: Progress) {
    p.Open? && p.bounds.min.None? && p.bounds.max.None?
  }

  lemma BoundsOneMore(p: Progress, f: Filter, toFloat: ToFloat)
    ensures Unbounded(Advance(p, f, toFloat)) <==> Unbounded(p) && !Bounding(f)
  {
    if f.InFilter? { SetHasBounds(f.values, toFloat); }
  }

  lemma {:induction false} UnboundedExactly(fs: seq<Filter>, toFloat: ToFloat)
    ensures Unbounded(BoundsOf(fs, toFloat)) <==> forall i :: 0 <= i < |fs| ==> !Bounding(fs[i])
  {
    if fs != [] {
      var n := |fs| - 1;
      UnboundedExactly(fs[..n], toFloat);
      BoundsOneMore(BoundsOf(fs[..n], toFloat), fs[n], toFloat);
      assert forall i :: 0 <= i < n ==> fs[..n][i] == fs[i];
    }
  }

  /** A column has no bounds exactly when no filter at a taken place bounds it. */
  lemma NoBoundsExactly(filters: seq<Filter>, name: string, toFloat: ToFloat)
    ensures ColumnBounds(filters, name, toFloat).None? <==>
      forall p :: Taken(filters, name, p) ==> !Bounding(FilterAt(filters, p))
  {
    var fs := Collect(filters, name);
    UnboundedExactly(fs, toFloat);
    var places := CollectedExactly(filters, name);
    if forall i :: 0 <= i < |fs| ==> !Bounding(fs[i]) {
      forall p | Taken(filters, name, p) ensures !Bounding(FilterAt(filters, p)) {
        assert p in places;
        var a :| 0 <= a < |places| && places[a] == p;
        assert !Bounding(fs[a]);
      }
    }
    if forall p :: Taken(filters, name, p) ==> !Bounding(FilterAt(filters, p)) {
      forall i | 0 <= i < |fs| ensures !Bounding(fs[i]) { assert places[i] in places; }
    }
  }

  // ---------------------------------------------------------------------------
  // What the bounds are
  // ---------------------------------------------------------------------------

  predicate FirstEquality(fs: seq<Filter>, i: nat) {
    i < |fs| && IsEquality(fs[i]) && forall j :: 0 <= j < i ==> !IsEquality(fs[j])
  }

  lemma {:induction false} PinnedToFirst(fs: seq<Filter>, i: nat, toFloat: ToFloat)
    requires FirstEquality(fs, i)
    ensures BoundsOf(fs, toFloat) == Pinned(fs[i].value)
  {
    var n := |fs| - 1;
    if i < n {
      assert FirstEquality(fs[..n], i);
      PinnedToFirst(fs[..n], i, toFloat);
    } else {
      assert forall j :: 0 <= j < n ==> fs[..n][j] == fs[j];
      PinnedByEquality(fs[..n], toFloat);
    }
  }

  /** With an equality among the collected filters the bounds are the value of the first one, twice and
      inclusive; without one, each end is the bound of the last filter that overrides all before it. */
  lemma BoundsExactly(filters: seq<Filter>, name: string, v: Value, toFloat: ToFloat)
    requires FloatOrder(toFloat) && SetsAreTyped(Collect(filters, name))
    requires OneType(Lower, Collect(filters, name), v, toFloat) && OneType(Upper, Collect(filters, name), v, toFloat)
    ensures var fs, b := Collect(filters, name), ColumnBounds(filters, name, toFloat);
      && (forall i: nat :: FirstEquality(fs, i) ==> b == Some(Bounds(Some(fs[i].value), true, Some(fs[i].value), true)))
      && (!HasEquality(fs) && b.Some? ==>
            EndIsStated(Lower, fs, b.value, toFloat) && EndIsStated(Upper, fs, b.value, toFloat))
  {
    var fs := Collect(filters, name);
    forall i: nat | FirstEquality(fs, i) ensures BoundsOf(fs, toFloat) == Pinned(fs[i].value) {
      PinnedToFirst(fs, i, toFloat);
    }
    PinnedByEquality(fs, toFloat);
    if !HasEquality(fs) {
      EndsAreStated(Lower, fs, v, toFloat);
      EndsAreStated(Upper, fs, v, toFloat);
    }
  }
}
