/** Which accepted rows the bounds of a column drop, for any filters on it (vgi/filter_helpers.go,
    `GetColumnBounds`). */
module FilterBounds {
  import opened Wrappers
  import opened SqlLogic
  import opened FilterExpr
  import opened FilterPruning

  datatype Side = Lower | Upper

  /** The bound a filter states on one side. */
  function Stated(side: Side, f: Filter, toFloat: ToFloat): Option<Value> {
    if side.Lower? then LowerBound(f, toFloat) else UpperBound(f, toFloat)
  }

  predicate Strict(f: Filter) {
    f.Constant? && (f.op == GT || f.op == LT)
  }

  /** The filter's bound replaces an earlier one: it is tighter in float64 order, or ties and is not
      strict. */
  predicate Overrides(side: Side, f: Filter, earlier: Value, v: Value, toFloat: ToFloat) {
    var a, b := if side.Lower? then earlier else v, if side.Lower? then v else earlier;
    if Strict(f) then FloatLess(toFloat, a, b) else FloatAtMost(toFloat, a, b)
  }

  /** Filter `i` overrides every bound stated before it. */
  ghost predicate Leads(side: Side, fs: seq<Filter>, i: nat, toFloat: ToFloat)
    requires i < |fs|
  {
    && Stated(side, fs[i], toFloat).Some?
    && forall j :: 0 <= j < i && Stated(side, fs[j], toFloat).Some? ==>
         Overrides(side, fs[i], Stated(side, fs[j], toFloat).value, Stated(side, fs[i], toFloat).value, toFloat)
  }

  /** The last filter to do so: the one whose bound is returned. */
  ghost predicate LeadsLast(side: Side, fs: seq<Filter>, i: nat, toFloat: ToFloat)
    requires i < |fs|
  {
    Leads(side, fs, i, toFloat) && forall j :: i < j < |fs| ==> !Leads(side, fs, j, toFloat)
  }

  /** The value lies below the first of the set's least values, or above the first of its greatest. */
  ghost predicate Beyond(side: Side, values: seq<Value>, v: Value, toFloat: ToFloat) {
    exists k :: 0 <= k < |values| &&
      if side.Lower? then FirstLeast(values, toFloat, k) && Compare(LT, v, values[k]) == Yes
      else FirstGreatest(values, toFloat, k) && Compare(GT, v, values[k]) == Yes
  }

  /** The bound on this side is stated by an IN set, and the value is beyond it. */
  ghost predicate Slips(side: Side, fs: seq<Filter>, v: Value, toFloat: ToFloat) {
    exists i :: 0 <= i < |fs| && LeadsLast(side, fs, i, toFloat) && fs[i].InFilter? &&
      Beyond(side, fs[i].values, v, toFloat)
  }

  predicate IsEquality(f: Filter) {
    f.Constant? && f.op == EQ
  }

  predicate HasEquality(fs: seq<Filter>) {
    exists i :: 0 <= i < |fs| && IsEquality(fs[i])
  }

  ghost predicate SetsAreTyped(fs: seq<Filter>) {
    forall i :: 0 <= i < |fs| && fs[i].InFilter? ==> Homogeneous(fs[i].values)
  }

  // ---------------------------------------------------------------------------
  // Where a bound comes from
  // ---------------------------------------------------------------------------

  function EndOf(side: Side, b: Bounds): Option<Value> {
    if side.Lower? then b.min else b.max
  }

  predicate Inclusive(side: Side, b: Bounds) {
    if side.Lower? then b.minInclusive else b.maxInclusive
  }

  lemma StepEnd(side: Side, b: Bounds, f: Filter, toFloat: ToFloat)
    requires FloatOrder(toFloat) && (f.InFilter? ==> Homogeneous(f.values)) && BoundsStep(b, f, toFloat).Open?
    ensures var b', s := BoundsStep(b, f, toFloat).bounds, Stated(side, f, toFloat);
      if s.Some? && (EndOf(side, b).None? || Overrides(side, f, EndOf(side, b).value, s.value, toFloat))
      then EndOf(side, b') == s && (Inclusive(side, b') <==> !Strict(f))
      else EndOf(side, b') == EndOf(side, b) && (Inclusive(side, b') <==> Inclusive(side, b))
  {
    if f.InFilter? { ArrayBoundsExtreme(f.values, toFloat); }
  }

  /** Every bound stated is of the type of `v`. */
  ghost predicate OneType(side: Side, fs: seq<Filter>, v: Value, toFloat: ToFloat) {
    forall i :: 0 <= i < |fs| && Stated(side, fs[i], toFloat).Some? ==>
      Comparable(v, Stated(side, fs[i], toFloat).value)
  }

  /** No bound stated is tighter than `end`. */
  ghost predicate Tightest(side: Side, fs: seq<Filter>, end: Value, toFloat: ToFloat) {
    forall j :: 0 <= j < |fs| && Stated(side, fs[j], toFloat).Some? ==>
      if side.Lower? then FloatAtMost(toFloat, Stated(side, fs[j], toFloat).value, end)
      else FloatAtMost(toFloat, end, Stated(side, fs[j], toFloat).value)
  }

  ghost predicate StatesEnd(side: Side, fs: seq<Filter>, i: nat, b: Bounds, toFloat: ToFloat)
    requires i < |fs|
  {
    LeadsLast(side, fs, i, toFloat) && Stated(side, fs[i], toFloat) == EndOf(side, b) &&
    (Inclusive(side, b) <==> !Strict(fs[i]))
  }

  ghost predicate NothingStated(side: Side, fs: seq<Filter>, toFloat: ToFloat) {
    forall i :: 0 <= i < |fs| ==> Stated(side, fs[i], toFloat).None?
  }

  /** The running bound is that of the filter that leads last. */
  ghost predicate EndIsStated(side: Side, fs: seq<Filter>, b: Bounds, toFloat: ToFloat) {
    match EndOf(side, b)
    case None => NothingStated(side, fs, toFloat)
    case Some(end) =>
      && (exists i :: 0 <= i < |fs| && StatesEnd(side, fs, i, b, toFloat))
      && (toFloat(end).Some? ==> Tightest(side, fs, end, toFloat))
  }

  lemma LeadsInMore(side: Side, fs: seq<Filter>, f: Filter, i: nat, toFloat: ToFloat)
    requires i < |fs|
    ensures Leads(side, fs + [f], i, toFloat) <==> Leads(side, fs, i, toFloat)
  {
    var more := fs + [f];
    assert forall j :: 0 <= j < |fs| ==> more[j] == fs[j];
    if Leads(side, more, i, toFloat) {
      forall j | 0 <= j < i && Stated(side, fs[j], toFloat).Some?
        ensures Overrides(side, fs[i], Stated(side, fs[j], toFloat).value, Stated(side, fs[i], toFloat).value, toFloat)
      {
        assert more[j] == fs[j];
      }
    }
  }

  /** One more filter leads exactly when it overrides the running bound. */
  lemma LastLeads(side: Side, fs: seq<Filter>, f: Filter, b: Bounds, v: Value, toFloat: ToFloat)
    requires FloatOrder(toFloat) && OneType(side, fs + [f], v, toFloat) && EndIsStated(side, fs, b, toFloat)
    ensures var s := Stated(side, f, toFloat);
      Leads(side, fs + [f], |fs|, toFloat) <==>
        s.Some? && (EndOf(side, b).None? || Overrides(side, f, EndOf(side, b).value, s.value, toFloat))
  {
    var more, s := fs + [f], Stated(side, f, toFloat);
    assert more[|fs|] == f && forall j :: 0 <= j < |fs| ==> more[j] == fs[j];
    if s.Some? && EndOf(side, b).Some? {
      var end := EndOf(side, b).value;
      var i :| 0 <= i < |fs| && StatesEnd(side, fs, i, b, toFloat);
      assert more[i] == fs[i] && Comparable(v, end) && Comparable(v, Stated(side, more[|fs|], toFloat).value);
      if Overrides(side, f, end, s.value, toFloat) {
        forall j | 0 <= j < |fs| && Stated(side, more[j], toFloat).Some?
          ensures Overrides(side, f, Stated(side, more[j], toFloat).value, s.value, toFloat)
        {
          assert more[j] == fs[j];
        }
      }
    }
  }

  lemma EndIsOfType(side: Side, fs: seq<Filter>, f: Filter, b: Bounds, v: Value, toFloat: ToFloat)
    requires OneType(side, fs + [f], v, toFloat) && EndIsStated(side, fs, b, toFloat)
    ensures EndOf(side, b).Some? ==> Comparable(v, EndOf(side, b).value)
    ensures Stated(side, f, toFloat).Some? ==> Comparable(v, Stated(side, f, toFloat).value)
  {
    var more := fs + [f];
    assert more[|fs|] == f;
    if EndOf(side, b).Some? {
      var i :| 0 <= i < |fs| && StatesEnd(side, fs, i, b, toFloat);
      assert more[i] == fs[i];
    }
  }

  lemma TightestOneMore(side: Side, fs: seq<Filter>, f: Filter, b: Bounds, v: Value, toFloat: ToFloat)
    requires FloatOrder(toFloat) && OneType(side, fs + [f], v, toFloat) && EndIsStated(side, fs, b, toFloat)
    requires (f.InFilter? ==> Homogeneous(f.values)) && BoundsStep(b, f, toFloat).Open?
    ensures var end := EndOf(side, BoundsStep(b, f, toFloat).bounds);
      end.Some? && toFloat(end.value).Some? ==> Tightest(side, fs + [f], end.value, toFloat)
  {
    StepEnd(side, b, f, toFloat);
    var more, end := fs + [f], EndOf(side, BoundsStep(b, f, toFloat).bounds);
    assert more[|fs|] == f;
    if end.Some? && toFloat(end.value).Some? {
      EndIsOfType(side, fs, f, b, v, toFloat);
      forall j | 0 <= j < |more| && Stated(side, more[j], toFloat).Some?
        ensures if side.Lower? then FloatAtMost(toFloat, Stated(side, more[j], toFloat).value, end.value)
                else FloatAtMost(toFloat, end.value, Stated(side, more[j], toFloat).value)
      {
        assert Comparable(v, Stated(side, more[j], toFloat).value);
        if j < |fs| { assert more[j] == fs[j]; }
      }
    }
  }

  lemma EndOneMore(side: Side, fs: seq<Filter>, f: Filter, b: Bounds, v: Value, toFloat: ToFloat)
    requires FloatOrder(toFloat) && OneType(side, fs + [f], v, toFloat) && EndIsStated(side, fs, b, toFloat)
    requires (f.InFilter? ==> Homogeneous(f.values)) && BoundsStep(b, f, toFloat).Open?
    ensures EndIsStated(side, fs + [f], BoundsStep(b, f, toFloat).bounds, toFloat)
  {
    StepEnd(side, b, f, toFloat);
    LastLeads(side, fs, f, b, v, toFloat);
    TightestOneMore(side, fs, f, b, v, toFloat);
    var more, b', n := fs + [f], BoundsStep(b, f, toFloat).bounds, |fs|;
    assert more[n] == f && forall j :: 0 <= j < n ==> more[j] == fs[j];
    if Leads(side, more, n, toFloat) {
      assert StatesEnd(side, more, n, b', toFloat);
    } else if EndOf(side, b).Some? {
      var i :| 0 <= i < n && StatesEnd(side, fs, i, b, toFloat);
      forall j | 0 <= j < n ensures Leads(side, more, j, toFloat) <==> Leads(side, fs, j, toFloat) {
        LeadsInMore(side, fs, f, j, toFloat);
      }
      assert StatesEnd(side, more, i, b', toFloat);
    }
  }

  lemma {:induction false} EndsAreStated(side: Side, fs: seq<Filter>, v: Value, toFloat: ToFloat)
    requires FloatOrder(toFloat) && SetsAreTyped(fs) && OneType(side, fs, v, toFloat) && BoundsOf(fs, toFloat).Open?
    ensures EndIsStated(side, fs, BoundsOf(fs, toFloat).bounds, toFloat)
  {
    if fs != [] {
      var n := |fs| - 1;
      assert forall i :: 0 <= i < n ==> fs[..n][i] == fs[i];
      EndsAreStated(side, fs[..n], v, toFloat);
      assert fs[..n] + [fs[n]] == fs;
      EndOneMore(side, fs[..n], fs[n], BoundsOf(fs[..n], toFloat).bounds, v, toFloat);
    }
  }

  lemma {:induction false} PinnedByEquality(fs: seq<Filter>, toFloat: ToFloat)
    ensures BoundsOf(fs, toFloat).Pinned? <==> HasEquality(fs)
  {
    if fs != [] {
      var n := |fs| - 1;
      PinnedByEquality(fs[..n], toFloat);
      if HasEquality(fs[..n]) {
        var i :| 0 <= i < n && IsEquality(fs[..n][i]);
        assert IsEquality(fs[i]);
      }
      if HasEquality(fs) && !IsEquality(fs[n]) {
        var i :| 0 <= i < |fs| && IsEquality(fs[i]);
        assert IsEquality(fs[..n][i]);
      }
    }
  }

  // ---------------------------------------------------------------------------
  // Which accepted rows are dropped
  // ---------------------------------------------------------------------------

  /** All filters are on a column whose cell is `v`, and hold. */
  ghost predicate HoldAt(fs: seq<Filter>, v: Value, row: Row, engine: Engine) {
    Accepts(fs, row, engine) && forall i :: 0 <= i < |fs| ==> Cell(row, ColumnName(fs[i])) == v
  }

  /** An accepted set lists a value equal to the cell. */
  lemma SetIsOfType(values: seq<Value>, v: Value, toFloat: ToFloat)
    requires FloatOrder(toFloat) && Homogeneous(values) && Member(v, values) == Yes
    ensures !AllNull(values) && forall w :: w in values && !w.Null? ==> Comparable(v, w)
  {
    MemberIffEqualToSome(v, values);
    var i :| 0 <= i < |values| && Compare(EQ, v, values[i]) == Yes;
    forall w | w in values && !w.Null? ensures Comparable(v, w) {
      var j :| 0 <= j < |values| && values[j] == w;
      assert Comparable(values[i], values[j]);
    }
  }

  lemma AcceptedIsOfType(side: Side, fs: seq<Filter>, v: Value, toFloat: ToFloat, row: Row, engine: Engine)
    requires FloatOrder(toFloat) && SetsAreTyped(fs) && HoldAt(fs, v, row, engine)
    ensures OneType(side, fs, v, toFloat)
  {
    forall i | 0 <= i < |fs| && Stated(side, fs[i], toFloat).Some?
      ensures Comparable(v, Stated(side, fs[i], toFloat).value)
    {
      assert FilterTruth(fs[i], row, engine) == Yes;
      if fs[i].InFilter? {
        SetIsOfType(fs[i].values, v, toFloat);
        ArrayBoundsExtreme(fs[i].values, toFloat);
      }
    }
  }

  predicate SideAdmits(side: Side, b: Bounds, v: Value) {
    match side
    case Lower => b.min.Some? ==> Compare(if b.minInclusive then GE else GT, v, b.min.value) == Yes
    case Upper => b.max.Some? ==> Compare(if b.maxInclusive then LE else LT, v, b.max.value) == Yes
  }

  lemma BeyondExact(side: Side, values: seq<Value>, v: Value, toFloat: ToFloat)
    requires FloatOrder(toFloat) && Homogeneous(values) && Member(v, values) == Yes
    ensures var r := ArrayBounds(values, toFloat);
      && r.lo.Some? && r.hi.Some?
      && (Beyond(side, values, v, toFloat) <==>
            if side.Lower? then Compare(GE, v, r.lo.value) != Yes else Compare(LE, v, r.hi.value) != Yes)
  {
    SetIsOfType(values, v, toFloat);
    var k, k' := ArrayBoundsAreFirst(values, toFloat);
    assert values[k] in values && values[k'] in values;
    if side.Lower? {
      BelowFirst(values, v, k, toFloat);
    } else {
      AboveFirst(values, v, k', toFloat);
    }
  }

  lemma BelowFirst(values: seq<Value>, v: Value, k: nat, toFloat: ToFloat)
    requires k < |values| && FirstLeast(values, toFloat, k) && Comparable(v, values[k])
    ensures Beyond(Lower, values, v, toFloat) <==> Compare(GE, v, values[k]) != Yes
  {
    forall j | 0 <= j < |values| ensures FirstLeast(values, toFloat, j) ==> j == k {
      FirstIsUnique(values, toFloat, j, k);
    }
  }

  lemma AboveFirst(values: seq<Value>, v: Value, k: nat, toFloat: ToFloat)
    requires k < |values| && FirstGreatest(values, toFloat, k) && Comparable(v, values[k])
    ensures Beyond(Upper, values, v, toFloat) <==> Compare(LE, v, values[k]) != Yes
  {
    forall j | 0 <= j < |values| ensures FirstGreatest(values, toFloat, j) ==> j == k {
      FirstIsUnique(values, toFloat, j, k);
    }
  }

  lemma SideExact(side: Side, fs: seq<Filter>, b: Bounds, v: Value, toFloat: ToFloat, row: Row, engine: Engine)
    requires FloatOrder(toFloat) && SetsAreTyped(fs) && HoldAt(fs, v, row, engine)
    requires EndIsStated(side, fs, b, toFloat)
    ensures SideAdmits(side, b, v) <==> !Slips(side, fs, v, toFloat)
  {
    if EndOf(side, b).Some? {
      var i :| 0 <= i < |fs| && StatesEnd(side, fs, i, b, toFloat);
      forall j | 0 <= j < |fs| && LeadsLast(side, fs, j, toFloat) ensures j == i {
        assert !(i < j) && !(j < i);
      }
      assert FilterTruth(fs[i], row, engine) == Yes;
      if fs[i].InFilter? { BeyondExact(side, fs[i].values, v, toFloat); }
    }
  }

  /** An accepted row is dropped if and only if no equality pins the column and its cell is beyond the
      IN set that states one of the bounds. */
  lemma DroppedExactly(filters: seq<Filter>, name: string, toFloat: ToFloat, row: Row, engine: Engine)
    requires FloatOrder(toFloat) && SetsAreTyped(Collect(filters, name))
    requires AllTruth(filters, row, engine) == Yes
    ensures var fs, b, v := Collect(filters, name), ColumnBounds(filters, name, toFloat), Cell(row, name);
      b.Some? && !Admits(b.value, v) <==>
      !HasEquality(fs) && (Slips(Lower, fs, v, toFloat) || Slips(Upper, fs, v, toFloat))
  {
    AllTruthAccepts(filters, row, engine);
    CollectedHold(filters, name, row, engine);
    var fs, v := Collect(filters, name), Cell(row, name);
    PinnedByEquality(fs, toFloat);
    match BoundsOf(fs, toFloat)
    case Pinned(c) =>
      PinnedHolds(fs, toFloat, v, row, engine);
      EqualKeepsOrder(v, c, c);
    case Open(b) =>
      forall side: Side ensures SideAdmits(side, b, v) <==> !Slips(side, fs, v, toFloat) {
        AcceptedIsOfType(side, fs, v, toFloat, row, engine);
        EndsAreStated(side, fs, v, toFloat);
        SideExact(side, fs, b, v, toFloat, row, engine);
      }
      assert Admits(b, v) <==> SideAdmits(Lower, b, v) && SideAdmits(Upper, b, v);
  }

  lemma {:induction false} PinnedHolds(fs: seq<Filter>, toFloat: ToFloat, v: Value, row: Row, engine: Engine)
    requires HoldAt(fs, v, row, engine) && BoundsOf(fs, toFloat).Pinned?
    ensures Compare(EQ, v, BoundsOf(fs, toFloat).value) == Yes
  {
    var n := |fs| - 1;
    assert FilterTruth(fs[n], row, engine) == Yes;
    if BoundsOf(fs[..n], toFloat).Pinned? {
      assert forall i :: 0 <= i < n ==> fs[..n][i] == fs[i];
      PinnedHolds(fs[..n], toFloat, v, row, engine);
    }
  }
}
