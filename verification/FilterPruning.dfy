/** The helpers a worker uses to skip data: column bounds and discrete value sets derived from
    the pushed filters (vgi/filter_helpers.go, vgi/filter_helpers_typed.go). Everything they
    return must let through each row that the filters accept. */
module FilterPruning {
  import opened Wrappers
  import opened Strings
  import opened SqlLogic
  import opened FilterExpr

  // ---------------------------------------------------------------------------
  // The filters that speak about one column
  // ---------------------------------------------------------------------------

  function OnColumn(fs: seq<Filter>, name: string): seq<Filter> {
    if fs == [] then []
    else OnColumn(fs[..|fs| - 1], name) + (if ColumnName(fs[|fs| - 1]) == name then [fs[|fs| - 1]] else [])
  }

  function CollectOne(f: Filter, name: string): seq<Filter> {
    if ColumnName(f) != name then []
    else if f.AndFilter? then OnColumn(f.children, name)
    else [f]
  }

  /** collectColumnFilters: the filters of a column, through one level of AND. */
  function Collect(filters: seq<Filter>, name: string): seq<Filter> {
    if filters == [] then [] else Collect(filters[..|filters| - 1], name) + CollectOne(filters[|filters| - 1], name)
  }

  /** All filters accept the row. */
  ghost predicate Accepts(fs: seq<Filter>, row: Row, engine: Engine) {
    forall i :: 0 <= i < |fs| ==> FilterTruth(fs[i], row, engine) == Yes
  }

  lemma {:induction false} AllTruthAccepts(fs: seq<Filter>, row: Row, engine: Engine)
    ensures AllTruth(fs, row, engine) == Yes <==> Accepts(fs, row, engine)
  {
    if fs != [] {
      AllTruthAccepts(fs[1..], row, engine);
      assert forall i :: 0 < i < |fs| ==> fs[i] == fs[1..][i - 1];
      if Accepts(fs[1..], row, engine) && FilterTruth(fs[0], row, engine) == Yes {
        forall i | 0 <= i < |fs| ensures FilterTruth(fs[i], row, engine) == Yes {
          if i > 0 { assert fs[i] == fs[1..][i - 1]; }
        }
      }
      if Accepts(fs, row, engine) {
        forall i | 0 <= i < |fs[1..]|
          ensures FilterTruth(fs[1..][i], row, engine) == Yes { assert fs[1..][i] == fs[i + 1]; }
      }
    }
  }

  lemma {:induction false} OnColumnHolds(fs: seq<Filter>, name: string, row: Row, engine: Engine)
    requires Accepts(fs, row, engine)
    ensures Accepts(OnColumn(fs, name), row, engine)
    ensures forall i :: 0 <= i < |OnColumn(fs, name)| ==> ColumnName(OnColumn(fs, name)[i]) == name
  {
    if fs != [] { OnColumnHolds(fs[..|fs| - 1], name, row, engine); }
  }

  ghost predicate HoldOn(fs: seq<Filter>, name: string, row: Row, engine: Engine) {
    Accepts(fs, row, engine) && forall i :: 0 <= i < |fs| ==> ColumnName(fs[i]) == name
  }

  lemma HoldTogether(a: seq<Filter>, b: seq<Filter>, name: string, row: Row, engine: Engine)
    requires HoldOn(a, name, row, engine) && HoldOn(b, name, row, engine)
    ensures HoldOn(a + b, name, row, engine)
  {
  }

  lemma OneCollectedHolds(f: Filter, name: string, row: Row, engine: Engine)
    requires FilterTruth(f, row, engine) == Yes
    ensures HoldOn(CollectOne(f, name), name, row, engine)
  {
    if ColumnName(f) == name && f.AndFilter? {
      AllTruthAccepts(f.children, row, engine);
      OnColumnHolds(f.children, name, row, engine);
    }
  }

  /** Every collected filter is a conjunct: a row all filters accept, it accepts. */
  lemma {:induction false} CollectedHold(filters: seq<Filter>, name: string, row: Row, engine: Engine)
    requires Accepts(filters, row, engine)
    ensures Accepts(Collect(filters, name), row, engine)
    ensures forall i :: 0 <= i < |Collect(filters, name)| ==> ColumnName(Collect(filters, name)[i]) == name
  {
    if filters != [] {
      var n := |filters| - 1;
      CollectedHold(filters[..n], name, row, engine);
      OneCollectedHolds(filters[n], name, row, engine);
      HoldTogether(Collect(filters[..n], name), CollectOne(filters[n], name), name, row, engine);
    }
  }

  // ---------------------------------------------------------------------------
  // Bounds
  // ---------------------------------------------------------------------------

  /** scalarToFloat64: `None` for the types it does not convert. */
  type ToFloat = Value -> Option<real>

  /** The conversion covers exactly the numbers and never reverses them; distinct numbers may
      still convert to one float64. */
  ghost predicate FloatOrder(toFloat: ToFloat) {
    && (forall v: Value {:trigger toFloat(v)} :: !v.Null? ==> (toFloat(v).Some? <==> Numeric(v)))
    && (forall a: Value, b: Value {:trigger toFloat(a), toFloat(b)} ::
          Numeric(a) && Numeric(b) && Number(a) <= Number(b) ==> toFloat(a).value <= toFloat(b).value)
  }

  predicate FloatLess(toFloat: ToFloat, a: Value, b: Value) {
    toFloat(a).Some? && toFloat(b).Some? && toFloat(a).value < toFloat(b).value
  }

  predicate FloatAtMost(toFloat: ToFloat, a: Value, b: Value) {
    toFloat(a).Some? && toFloat(b).Some? && toFloat(a).value <= toFloat(b).value
  }

  datatype Range = Range(lo: Option<Value>, hi: Option<Value>)

  /** arrayBoundsScalar: the least and the greatest non-null value, in float64 order. */
  function ArrayBounds(values: seq<Value>, toFloat: ToFloat): Range {
    if values == [] then Range(None, None)
    else
      var r, v := ArrayBounds(values[..|values| - 1], toFloat), values[|values| - 1];
      if v.Null? then r
      else Range(if r.lo.None? || FloatLess(toFloat, v, r.lo.value) then Some(v) else r.lo,
                 if r.hi.None? || FloatLess(toFloat, r.hi.value, v) then Some(v) else r.hi)
  }

  datatype Bounds = Bounds(min: Option<Value>, minInclusive: bool, max: Option<Value>, maxInclusive: bool)

  /** The running bounds, or the value an equality pinned the column to. */
  datatype Progress = Open(bounds: Bounds) | Pinned(value: Value)

  function BoundsStep(b: Bounds, f: Filter, toFloat: ToFloat): Progress {
    match f
    case InFilter(_, _, values) =>
      var r := ArrayBounds(values, toFloat);
      if r.lo.None? || r.hi.None? then Open(b)
      else
        var raise := b.min.None? || FloatAtMost(toFloat, b.min.value, r.lo.value);
        var lower := b.max.None? || FloatAtMost(toFloat, r.hi.value, b.max.value);
        Open(Bounds(if raise then r.lo else b.min, raise || b.minInclusive,
                    if lower then r.hi else b.max, lower || b.maxInclusive))
    case Constant(_, _, op, v) =>
      (match op
       case EQ => Pinned(v)
       case GT => Open(if b.min.None? ||
         FloatLess(toFloat, b.min.value, v) then b.(min := Some(v), minInclusive := false) else b)
       case GE => Open(if b.min.None? ||
         FloatAtMost(toFloat, b.min.value, v) then b.(min := Some(v), minInclusive := true) else b)
       case LT => Open(if b.max.None? ||
         FloatLess(toFloat, v, b.max.value) then b.(max := Some(v), maxInclusive := false) else b)
       case LE => Open(if b.max.None? ||
         FloatAtMost(toFloat, v, b.max.value) then b.(max := Some(v), maxInclusive := true) else b)
       case NE => Open(b))
    case _ => Open(b)
  }

  const NO_BOUNDS: Bounds := Bounds(None, true, None, true)

  function Advance(p: Progress, f: Filter, toFloat: ToFloat): Progress {
    match p
    case Pinned(v) => Pinned(v)
    case Open(b) => BoundsStep(b, f, toFloat)
  }

  function BoundsOf(fs: seq<Filter>, toFloat: ToFloat): Progress {
    if fs == [] then Open(NO_BOUNDS) else Advance(BoundsOf(fs[..|fs| - 1], toFloat), fs[|fs| - 1], toFloat)
  }

  function ColumnBounds(filters: seq<Filter>, name: string, toFloat: ToFloat): Option<Bounds> {
    match BoundsOf(Collect(filters, name), toFloat)
    case Pinned(v) => Some(Bounds(Some(v), true, Some(v), true))
    case Open(b) => if b.min.None? && b.max.None? then None else Some(b)
  }

  /** Does the value lie inside the bounds? */
  predicate Admits(b: Bounds, v: Value) {
    && (b.min.Some? ==> Compare(if b.minInclusive then GE else GT, v, b.min.value) == Yes)
    && (b.max.Some? ==> Compare(if b.maxInclusive then LE else LT, v, b.max.value) == Yes)
  }

  /** Two values the float64 order does not tell apart. */
  predicate Tied(toFloat: ToFloat, a: Value, b: Value) {
    toFloat(a) == toFloat(b)
  }

  ghost predicate Homogeneous(values: seq<Value>) {
    forall i, j :: 0 <= i < |values| && 0 <= j < |values| && !values[i].Null? && !values[j].Null? ==>
      Comparable(values[i], values[j])
  }

  /** No non-null value is below (above) the one at `k` in float64 order. */
  ghost predicate IsLeast(values: seq<Value>, toFloat: ToFloat, k: nat)
    requires k < |values|
  {
    !values[k].Null? && forall i :: 0 <= i < |values| && !values[i].Null? ==> !FloatLess(toFloat, values[i], values[k])
  }

  ghost predicate IsGreatest(values: seq<Value>, toFloat: ToFloat, k: nat)
    requires k < |values|
  {
    !values[k].Null? && forall i :: 0 <= i < |values| && !values[i].Null? ==> !FloatLess(toFloat, values[k], values[i])
  }

  ghost predicate FirstLeast(values: seq<Value>, toFloat: ToFloat, k: nat)
    requires k < |values|
  {
    IsLeast(values, toFloat, k) && forall j :: 0 <= j < k ==> !IsLeast(values, toFloat, j)
  }

  ghost predicate FirstGreatest(values: seq<Value>, toFloat: ToFloat, k: nat)
    requires k < |values|
  {
    IsGreatest(values, toFloat, k) && forall j :: 0 <= j < k ==> !IsGreatest(values, toFloat, j)
  }

  /** No value that ties with the one at `k` lies below (above) it. */
  ghost predicate NoneBelow(values: seq<Value>, toFloat: ToFloat, k: nat)
    requires k < |values|
  {
    forall i :: 0 <= i < |values| && !values[i].Null? && Tied(toFloat, values[i], values[k]) ==>
      Compare(GE, values[i], values[k]) == Yes
  }

  ghost predicate NoneAbove(values: seq<Value>, toFloat: ToFloat, k: nat)
    requires k < |values|
  {
    forall i :: 0 <= i < |values| && !values[i].Null? && Tied(toFloat, values[i], values[k]) ==>
      Compare(LE, values[i], values[k]) == Yes
  }

  /** The set lists a smallest value before any other that converts to the same least float64, and a
      largest one before any other that converts to the greatest. */
  ghost predicate TiesResolved(values: seq<Value>, toFloat: ToFloat) {
    forall k :: 0 <= k < |values| ==>
      && (FirstLeast(values, toFloat, k) ==> NoneBelow(values, toFloat, k))
      && (FirstGreatest(values, toFloat, k) ==> NoneAbove(values, toFloat, k))
  }

  /** Every non-null value lies between the bounds found. */
  ghost predicate RangeCovers(values: seq<Value>, toFloat: ToFloat) {
    var r := ArrayBounds(values, toFloat);
    forall i :: 0 <= i < |values| && !values[i].Null? ==>
      && r.lo.Some? && Compare(GE, values[i], r.lo.value) == Yes
      && r.hi.Some? && Compare(LE, values[i], r.hi.value) == Yes
  }

  /** What the loop of arrayBoundsScalar keeps: its results are values of the array, and no value is
      outside them in float64 order. */
  lemma {:induction false} ArrayBoundsExtreme(values: seq<Value>, toFloat: ToFloat)
    requires FloatOrder(toFloat) && Homogeneous(values)
    ensures var r := ArrayBounds(values, toFloat);
      && (r.lo.Some? <==> r.hi.Some?)
      && (r.lo.Some? ==> r.lo.value in values && !r.lo.value.Null? && r.hi.value in values && !r.hi.value.Null?)
      && (forall i :: 0 <= i < |values| && !values[i].Null? ==>
            r.lo.Some? && !FloatLess(toFloat, values[i], r.lo.value) && !FloatLess(toFloat, r.hi.value, values[i]))
  {
    if values != [] {
      var n := |values| - 1;
      assert Homogeneous(values[..n]);
      ArrayBoundsExtreme(values[..n], toFloat);
      assert values == values[..n] + [values[n]];
      if !values[n].Null? && ArrayBounds(values[..n], toFloat).lo.Some? {
        assert Comparable(values[n], ArrayBounds(values[..n], toFloat).lo.value);
        assert Comparable(values[n], ArrayBounds(values[..n], toFloat).hi.value);
      }
    }
  }

  predicate AllNull(values: seq<Value>) {
    forall i :: 0 <= i < |values| ==> values[i].Null?
  }

  lemma LastIsFirstLeast(values: seq<Value>, toFloat: ToFloat, k: nat)
    requires FloatOrder(toFloat) && Homogeneous(values) && values != []
    requires var n := |values| - 1;
      !values[n].Null? && k < n && FirstLeast(values[..n], toFloat, k) && FloatLess(toFloat, values[n], values[k])
    ensures FirstLeast(values, toFloat, |values| - 1)
  {
    var n := |values| - 1;
    forall j | 0 <= j < n ensures !IsLeast(values, toFloat, j) {
      if !values[j].Null? {
        assert values[..n][j] == values[j] && Comparable(values[j], values[k]);
        assert FloatLess(toFloat, values[n], values[j]);
      }
    }
    forall i | 0 <= i < |values| && !values[i].Null? ensures !FloatLess(toFloat, values[i], values[n]) {
      if i < n { assert values[..n][i] == values[i]; }
    }
  }

  lemma StaysFirstLeast(values: seq<Value>, toFloat: ToFloat, k: nat)
    requires values != [] && k < |values| - 1 && FirstLeast(values[..|values| - 1], toFloat, k)
    requires var v := values[|values| - 1]; v.Null? || !FloatLess(toFloat, v, values[k])
    ensures FirstLeast(values, toFloat, k)
  {
    var n := |values| - 1;
    forall j | 0 <= j < k ensures !IsLeast(values, toFloat, j) {
      assert !IsLeast(values[..n], toFloat, j);
      if !values[j].Null? {
        var i :| 0 <= i < n && !values[..n][i].Null? && FloatLess(toFloat, values[..n][i], values[..n][j]);
        assert FloatLess(toFloat, values[i], values[j]);
      }
    }
    forall i | 0 <= i < |values| && !values[i].Null? ensures !FloatLess(toFloat, values[i], values[k]) {
      if i < n { assert values[..n][i] == values[i]; }
    }
  }

  lemma LastIsFirstGreatest(values: seq<Value>, toFloat: ToFloat, k: nat)
    requires FloatOrder(toFloat) && Homogeneous(values) && values != []
    requires var n := |values| - 1;
      !values[n].Null? && k < n && FirstGreatest(values[..n], toFloat, k) && FloatLess(toFloat, values[k], values[n])
    ensures FirstGreatest(values, toFloat, |values| - 1)
  {
    var n := |values| - 1;
    forall j | 0 <= j < n ensures !IsGreatest(values, toFloat, j) {
      if !values[j].Null? {
        assert values[..n][j] == values[j] && Comparable(values[j], values[k]);
        assert FloatLess(toFloat, values[j], values[n]);
      }
    }
    forall i | 0 <= i < |values| && !values[i].Null? ensures !FloatLess(toFloat, values[n], values[i]) {
      if i < n { assert values[..n][i] == values[i]; }
    }
  }

  lemma StaysFirstGreatest(values: seq<Value>, toFloat: ToFloat, k: nat)
    requires values != [] && k < |values| - 1 && FirstGreatest(values[..|values| - 1], toFloat, k)
    requires var v := values[|values| - 1]; v.Null? || !FloatLess(toFloat, values[k], v)
    ensures FirstGreatest(values, toFloat, k)
  {
    var n := |values| - 1;
    forall j | 0 <= j < k ensures !IsGreatest(values, toFloat, j) {
      assert !IsGreatest(values[..n], toFloat, j);
      if !values[j].Null? {
        var i :| 0 <= i < n && !values[..n][i].Null? && FloatLess(toFloat, values[..n][j], values[..n][i]);
        assert FloatLess(toFloat, values[j], values[i]);
      }
    }
    forall i | 0 <= i < |values| && !values[i].Null? ensures !FloatLess(toFloat, values[k], values[i]) {
      if i < n { assert values[..n][i] == values[i]; }
    }
  }

  /** arrayBoundsScalar returns the first of the least and the first of the greatest values. */
  lemma {:induction false} ArrayBoundsAreFirst(values: seq<Value>, toFloat: ToFloat) returns (k: nat, k': nat)
    requires FloatOrder(toFloat) && Homogeneous(values) && !AllNull(values)
    ensures k < |values| && FirstLeast(values, toFloat, k)
    ensures k' < |values| && FirstGreatest(values, toFloat, k')
    ensures ArrayBounds(values, toFloat) == Range(Some(values[k]), Some(values[k']))
  {
    var n := |values| - 1;
    if AllNull(values[..n]) {
      k, k' := n, n;
      assert forall j :: 0 <= j < n ==> values[..n][j] == values[j];
      NullBounds(values[..n], toFloat);
    } else {
      k, k' := ArrayBoundsAreFirst(values[..n], toFloat);
      assert values[..n][k] == values[k] && values[..n][k'] == values[k'];
      if !values[n].Null? && FloatLess(toFloat, values[n], values[k]) {
        LastIsFirstLeast(values, toFloat, k);
        k := n;
      } else {
        StaysFirstLeast(values, toFloat, k);
      }
      if !values[n].Null? && FloatLess(toFloat, values[k'], values[n]) {
        LastIsFirstGreatest(values, toFloat, k');
        k' := n;
      } else {
        StaysFirstGreatest(values, toFloat, k');
      }
    }
  }

  lemma {:induction false} NullBounds(values: seq<Value>, toFloat: ToFloat)
    requires AllNull(values)
    ensures ArrayBounds(values, toFloat) == Range(None, None)
  {
    if values != [] { NullBounds(values[..|values| - 1], toFloat); }
  }

  lemma FirstIsUnique(values: seq<Value>, toFloat: ToFloat, a: nat, b: nat)
    requires a < |values| && b < |values|
    ensures FirstLeast(values, toFloat, a) && FirstLeast(values, toFloat, b) ==> a == b
    ensures FirstGreatest(values, toFloat, a) && FirstGreatest(values, toFloat, b) ==> a == b
  {
  }

  /** The bounds of a value set cover it exactly when the ties at its two ends are resolved. */
  lemma ArrayBoundsExact(values: seq<Value>, toFloat: ToFloat)
    requires FloatOrder(toFloat) && Homogeneous(values)
    ensures RangeCovers(values, toFloat) <==> TiesResolved(values, toFloat)
  {
    if !AllNull(values) {
      var k, k' := ArrayBoundsAreFirst(values, toFloat);
      forall j | 0 <= j < |values|
        ensures FirstLeast(values, toFloat, j) ==> j == k
        ensures FirstGreatest(values, toFloat, j) ==> j == k'
      {
        FirstIsUnique(values, toFloat, j, k);
        FirstIsUnique(values, toFloat, j, k');
      }
      EndsCover(values, toFloat, k, k');
    }
  }

  /** Between the two ends the float64 order already decides. */
  lemma EndsCover(values: seq<Value>, toFloat: ToFloat, k: nat, k': nat)
    requires FloatOrder(toFloat) && Homogeneous(values) && k < |values| && k' < |values|
    requires IsLeast(values, toFloat, k) && IsGreatest(values, toFloat, k')
    ensures NoneBelow(values, toFloat, k) <==>
      forall i :: 0 <= i < |values| && !values[i].Null? ==> Compare(GE, values[i], values[k]) == Yes
    ensures NoneAbove(values, toFloat, k') <==>
      forall i :: 0 <= i < |values| && !values[i].Null? ==> Compare(LE, values[i], values[k']) == Yes
  {
    forall i | 0 <= i < |values| && !values[i].Null?
      ensures Tied(toFloat, values[i], values[k]) || Compare(GE, values[i], values[k]) == Yes
      ensures Tied(toFloat, values[i], values[k']) || Compare(LE, values[i], values[k']) == Yes
    {
      assert Comparable(values[i], values[k]) && Comparable(values[i], values[k']);
    }
  }

  /** A set of a type the comparators do not order is covered exactly when all its non-null values
      are equal. */
  lemma UnorderedSetCovered(values: seq<Value>, toFloat: ToFloat)
    requires FloatOrder(toFloat) && Homogeneous(values)
    requires forall i :: 0 <= i < |values| ==> !Numeric(values[i])
    ensures RangeCovers(values, toFloat) <==>
      forall i, j :: 0 <= i < |values| && 0 <= j < |values| && !values[i].Null? && !values[j].Null? ==>
        values[i] == values[j]
  {
    if !AllNull(values) {
      var k, k' := ArrayBoundsAreFirst(values, toFloat);
      assert IsLeast(values, toFloat, k') && IsGreatest(values, toFloat, k);
      assert k == k' by { assert !(k < k') && !(k' < k); }
      forall i | 0 <= i < |values| && !values[i].Null?
        ensures Compare(GE, values[i], values[k]) == Yes && Compare(LE, values[i], values[k]) == Yes <==>
          values[i] == values[k]
      {
        assert Comparable(values[i], values[k]);
        if values[k].Text? { TextLessIsTotal(values[i].s, values[k].s); }
      }
    }
  }

  /** A value equal to one inside the range is inside it too. */
  lemma EqualKeepsOrder(v: Value, w: Value, bound: Value)
    requires Compare(EQ, v, w) == Yes
    ensures Compare(GE, w, bound) == Yes ==> Compare(GE, v, bound) == Yes
    ensures Compare(LE, w, bound) == Yes ==> Compare(LE, v, bound) == Yes
    ensures Compare(GE, v, w) == Yes && Compare(LE, v, w) == Yes
  {
    if v.Text? { TextLessIsTotal(v.s, v.s); }
  }

  /** The IN sets among the filters have their ties resolved. */
  ghost predicate SetsResolved(fs: seq<Filter>, toFloat: ToFloat) {
    forall i :: 0 <= i < |fs| && fs[i].InFilter? ==> Homogeneous(fs[i].values) && TiesResolved(fs[i].values, toFloat)
  }

  lemma StepAdmits(b: Bounds, f: Filter, toFloat: ToFloat, v: Value, row: Row, engine: Engine)
    requires FloatOrder(toFloat) && Admits(b, v)
    requires FilterTruth(f, row, engine) == Yes && Cell(row, ColumnName(f)) == v
    requires f.InFilter? ==> Homogeneous(f.values) && TiesResolved(f.values, toFloat)
    ensures match BoundsStep(b, f, toFloat) case Open(b') => Admits(b', v) case Pinned(c) => Compare(EQ, v, c) == Yes
  {
    if f.InFilter? {
      MemberIffEqualToSome(v, f.values);
      var i :| 0 <= i < |f.values| && Compare(EQ, v, f.values[i]) == Yes;
      ArrayBoundsExact(f.values, toFloat);
      var r := ArrayBounds(f.values, toFloat);
      EqualKeepsOrder(v, f.values[i], r.lo.value);
      EqualKeepsOrder(v, f.values[i], r.hi.value);
    }
  }

  lemma {:induction false} RunningBoundsAdmit(fs: seq<Filter>, toFloat: ToFloat, v: Value, row: Row, engine: Engine)
    requires FloatOrder(toFloat) && SetsResolved(fs, toFloat) && Accepts(fs, row, engine)
    requires forall i :: 0 <= i < |fs| ==> Cell(row, ColumnName(fs[i])) == v
    ensures match BoundsOf(fs, toFloat) case Open(b) => Admits(b, v) case Pinned(c) => Compare(EQ, v, c) == Yes
  {
    if fs != [] {
      var n := |fs| - 1;
      assert SetsResolved(fs[..n], toFloat) && Accepts(fs[..n], row, engine);
      RunningBoundsAdmit(fs[..n], toFloat, v, row, engine);
      var before := BoundsOf(fs[..n], toFloat);
      if before.Open? { StepAdmits(before.bounds, fs[n], toFloat, v, row, engine); }
    }
  }

  /** Pruning by bounds never drops a row: every row the filters accept lies inside the column's bounds. */
  lemma BoundsAreSound(filters: seq<Filter>, name: string, toFloat: ToFloat, row: Row, engine: Engine)
    requires FloatOrder(toFloat) && SetsResolved(Collect(filters, name), toFloat)
    requires AllTruth(filters, row, engine) == Yes
    ensures var b := ColumnBounds(filters, name, toFloat); b.Some? ==> Admits(b.value, Cell(row, name))
  {
    AllTruthAccepts(filters, row, engine);
    CollectedHold(filters, name, row, engine);
    var fs := Collect(filters, name);
    RunningBoundsAdmit(fs, toFloat, Cell(row, name), row, engine);
    if BoundsOf(fs, toFloat).Pinned? {
      EqualKeepsOrder(Cell(row, name), BoundsOf(fs, toFloat).value, BoundsOf(fs, toFloat).value);
    }
  }

  lemma EqualToItself(v: Value)
    requires !v.Null?
    ensures Compare(EQ, v, v) == Yes
  {
  }

  lemma OneFilter(f: Filter, row: Row, engine: Engine)
    ensures AllTruth([f], row, engine) == FilterTruth(f, row, engine)
  {
    assert [f][1..] == [];
  }

  /** The bounds of a lone IN filter are those of its set. */
  lemma OneSetBounds(name: string, index: int, values: seq<Value>, toFloat: ToFloat)
    ensures var r := ArrayBounds(values, toFloat);
      ColumnBounds([InFilter(name, index, values)], name, toFloat) ==
        if r.lo.None? || r.hi.None? then None else Some(Bounds(r.lo, true, r.hi, true))
    ensures Collect([InFilter(name, index, values)], name) == [InFilter(name, index, values)]
  {
    var f := InFilter(name, index, values);
    OneIsCollected(f, name);
    OneIsRun(f, toFloat);
    SetAlone(name, index, values, toFloat);
  }

  lemma OneIsCollected(f: Filter, name: string)
    requires !f.AndFilter? && ColumnName(f) == name
    ensures Collect([f], name) == [f]
  {
    assert [f][..0] == [];
    assert Collect([f], name) == Collect([], name) + CollectOne(f, name);
  }

  lemma OneIsRun(f: Filter, toFloat: ToFloat)
    ensures BoundsOf([f], toFloat) == BoundsStep(NO_BOUNDS, f, toFloat)
  {
    assert [f][..0] == [];
    assert BoundsOf([f], toFloat) == Advance(BoundsOf([], toFloat), f, toFloat);
  }

  lemma SetAlone(name: string, index: int, values: seq<Value>, toFloat: ToFloat)
    ensures var r := ArrayBounds(values, toFloat);
      BoundsStep(NO_BOUNDS, InFilter(name, index, values), toFloat) ==
        Open(if r.lo.None? || r.hi.None? then NO_BOUNDS else Bounds(r.lo, true, r.hi, true))
  {
  }

  /** Unresolved ties let a listed value fall outside. */
  lemma UnresolvedTiesDropRow(name: string, index: int, values: seq<Value>, toFloat: ToFloat,
                              engine: Engine) returns (row: Row)
    requires FloatOrder(toFloat) && Homogeneous(values) && !TiesResolved(values, toFloat)
    ensures FilterTruth(InFilter(name, index, values), row, engine) == Yes
    ensures var b := ColumnBounds([InFilter(name, index, values)], name, toFloat);
      b.Some? && !Admits(b.value, Cell(row, name))
  {
    ArrayBoundsExact(values, toFloat);
    ArrayBoundsExtreme(values, toFloat);
    OneSetBounds(name, index, values, toFloat);
    var r := ArrayBounds(values, toFloat);
    var i :| 0 <= i < |values| && !values[i].Null? &&
      !(r.lo.Some? && Compare(GE, values[i], r.lo.value) == Yes && r.hi.Some? &&
        Compare(LE, values[i], r.hi.value) == Yes);
    row := map[name := values[i]];
    EqualToItself(values[i]);
    MemberIffEqualToSome(values[i], values);
  }

  /** The row is accepted but its cell lies outside the bounds. */
  ghost predicate Dropped(f: Filter, name: string, toFloat: ToFloat, row: Row, engine: Engine) {
    var b := ColumnBounds([f], name, toFloat);
    FilterTruth(f, row, engine) == Yes && b.Some? && !Admits(b.value, Cell(row, name))
  }

  /** For a single IN filter, pruning by bounds drops no row exactly when the ties of its set are resolved. */
  lemma SetBoundsExact(name: string, index: int, values: seq<Value>, toFloat: ToFloat, engine: Engine)
    requires FloatOrder(toFloat) && Homogeneous(values)
    ensures TiesResolved(values, toFloat) <==>
      forall row :: !Dropped(InFilter(name, index, values), name, toFloat, row, engine)
  {
    var f := InFilter(name, index, values);
    if TiesResolved(values, toFloat) {
      OneSetBounds(name, index, values, toFloat);
      forall row ensures !Dropped(f, name, toFloat, row, engine) {
        OneFilter(f, row, engine);
        if FilterTruth(f, row, engine) == Yes { BoundsAreSound([f], name, toFloat, row, engine); }
      }
    } else {
      var row := UnresolvedTiesDropRow(name, index, values, toFloat, engine);
      assert Dropped(f, name, toFloat, row, engine);
    }
  }

  lemma TiedPair(a: Value, b: Value, toFloat: ToFloat)
    requires !a.Null? && !b.Null? && toFloat(a) == toFloat(b)
    ensures ArrayBounds([a, b], toFloat) == Range(Some(a), Some(a))
    ensures Member(b, [a, b]) == Yes
  {
    assert [a, b][..1] == [a] && [a][..0] == [] && [a, b][1..] == [b];
    assert ArrayBounds([a], toFloat) == Range(Some(a), Some(a));
    EqualToItself(b);
  }

  lemma TiedSetDrops(a: Value, b: Value, toFloat: ToFloat, engine: Engine)
    requires !a.Null? && !b.Null? && toFloat(a) == toFloat(b) && Compare(LT, b, a) == Yes
    ensures Dropped(InFilter("c", 0, [a, b]), "c", toFloat, map["c" := b], engine)
  {
    TiedPair(a, b, toFloat);
    OneSetBounds("c", 0, [a, b], toFloat);
  }

  /** An IN set of text is not covered: the comparators leave both bounds at its first value. */
  lemma TextSetBreaksBounds(toFloat: ToFloat, engine: Engine)
    requires FloatOrder(toFloat)
    ensures Dropped(InFilter("c", 0, [Text("b"), Text("a")]), "c", toFloat, map["c" := Text("a")], engine)
  {
    TiedSetDrops(Text("b"), Text("a"), toFloat, engine);
  }

  /** Nor is an IN set of two neighbouring integers that round to one float64. */
  lemma RoundedSetBreaksBounds(toFloat: ToFloat, n: int, engine: Engine)
    requires FloatOrder(toFloat) && toFloat(Int(n)) == toFloat(Int(n + 1))
    ensures Dropped(InFilter("c", 0, [Int(n + 1), Int(n)]), "c", toFloat, map["c" := Int(n)], engine)
  {
    TiedSetDrops(Int(n + 1), Int(n), toFloat, engine);
  }

  /** In binary64 that happens first at 2^53: 2^53 + 1 lies halfway between two multiples of 2 and
      rounds to the even one, 2^53. */
  lemma SetAt2To53BreaksBounds(toFloat: ToFloat, engine: Engine)
    requires FloatOrder(toFloat)
    requires toFloat(Int(0x20_0000_0000_0000)) == toFloat(Int(0x20_0000_0000_0001)) == Some(9007199254740992.0)
    ensures Dropped(InFilter("c", 0, [Int(0x20_0000_0000_0001), Int(0x20_0000_0000_0000)]), "c", toFloat,
                    map["c" := Int(0x20_0000_0000_0000)], engine)
  {
    RoundedSetBreaksBounds(toFloat, 0x20_0000_0000_0000, engine);
  }

  /** Numbers that the conversion keeps apart are covered. */
  lemma ExactNumbersResolve(values: seq<Value>, toFloat: ToFloat)
    requires FloatOrder(toFloat)
    requires forall i :: 0 <= i < |values| && !values[i].Null? ==>
      Numeric(values[i]) && toFloat(values[i]) == Some(Number(values[i]))
    ensures Homogeneous(values) && TiesResolved(values, toFloat)
  {
    ArrayBoundsExtreme(values, toFloat);
  }

  // ---------------------------------------------------------------------------
  // The bounds are as tight as the filters make them
  // ---------------------------------------------------------------------------

  /** The value below (above) which the filter accepts nothing, if it states one. */
  function LowerBound(f: Filter, toFloat: ToFloat): Option<Value> {
    if f.InFilter? then ArrayBounds(f.values, toFloat).lo
    else if f.Constant? && (f.op == GT || f.op == GE) then Some(f.value)
    else None
  }

  function UpperBound(f: Filter, toFloat: ToFloat): Option<Value> {
    if f.InFilter? then ArrayBounds(f.values, toFloat).hi
    else if f.Constant? && (f.op == LT || f.op == LE) then Some(f.value)
    else None
  }

  /** All bounds in the list are numbers. */
  ghost predicate NumericBounds(fs: seq<Filter>, toFloat: ToFloat) {
    forall i :: 0 <= i < |fs| ==>
      && (LowerBound(fs[i], toFloat).Some? ==> toFloat(LowerBound(fs[i], toFloat).value).Some?)
      && (UpperBound(fs[i], toFloat).Some? ==> toFloat(UpperBound(fs[i], toFloat).value).Some?)
      && (LowerBound(fs[i], toFloat).Some? && fs[i].InFilter? <==> UpperBound(fs[i], toFloat).Some? && fs[i].InFilter?)
  }

  /** The minimum is the greatest lower bound stated, exclusive only if a `>` states it and
      inclusive only if a `>=` or an IN set does. */
  ghost predicate TightBelow(fs: seq<Filter>, b: Bounds, toFloat: ToFloat) {
    && (forall i :: 0 <= i < |fs| && LowerBound(fs[i], toFloat).Some? ==>
          b.min.Some? && FloatAtMost(toFloat, LowerBound(fs[i], toFloat).value, b.min.value))
    && (b.min.Some? ==> exists i :: 0 <= i < |fs| && StatesMin(fs[i], b, toFloat))
  }

  predicate StatesMin(f: Filter, b: Bounds, toFloat: ToFloat) {
    LowerBound(f, toFloat) == b.min && (b.minInclusive <==> !(f.Constant? && f.op == GT))
  }

  /** The same for the maximum. */
  ghost predicate TightAbove(fs: seq<Filter>, b: Bounds, toFloat: ToFloat) {
    && (forall i :: 0 <= i < |fs| && UpperBound(fs[i], toFloat).Some? ==>
          b.max.Some? && FloatAtMost(toFloat, b.max.value, UpperBound(fs[i], toFloat).value))
    && (b.max.Some? ==> exists i :: 0 <= i < |fs| && StatesMax(fs[i], b, toFloat))
  }

  predicate StatesMax(f: Filter, b: Bounds, toFloat: ToFloat) {
    UpperBound(f, toFloat) == b.max && (b.maxInclusive <==> !(f.Constant? && f.op == LT))
  }

  lemma TightBelowOneMore(fs: seq<Filter>, f: Filter, b: Bounds, toFloat: ToFloat)
    requires NumericBounds(fs + [f], toFloat) && TightBelow(fs, b, toFloat) && BoundsStep(b, f, toFloat).Open?
    ensures TightBelow(fs + [f], BoundsStep(b, f, toFloat).bounds, toFloat)
  {
    var more, b' := fs + [f], BoundsStep(b, f, toFloat).bounds;
    assert more[|fs|] == f;
    if b'.min.Some? && !StatesMin(f, b', toFloat) {
      var i :| 0 <= i < |fs| && StatesMin(fs[i], b, toFloat);
      assert more[i] == fs[i];
    }
  }

  lemma TightAboveOneMore(fs: seq<Filter>, f: Filter, b: Bounds, toFloat: ToFloat)
    requires NumericBounds(fs + [f], toFloat) && TightAbove(fs, b, toFloat) && BoundsStep(b, f, toFloat).Open?
    ensures TightAbove(fs + [f], BoundsStep(b, f, toFloat).bounds, toFloat)
  {
    var more, b' := fs + [f], BoundsStep(b, f, toFloat).bounds;
    assert more[|fs|] == f;
    if b'.max.Some? && !StatesMax(f, b', toFloat) {
      var i :| 0 <= i < |fs| && StatesMax(fs[i], b, toFloat);
      assert more[i] == fs[i];
    }
  }

  ghost predicate Tight(fs: seq<Filter>, p: Progress, toFloat: ToFloat) {
    match p
    case Open(b) => TightBelow(fs, b, toFloat) && TightAbove(fs, b, toFloat)
    case Pinned(v) => exists i :: 0 <= i < |fs| && fs[i].Constant? && fs[i].op == EQ && fs[i].value == v
  }

  lemma TightOneMore(fs: seq<Filter>, f: Filter, p: Progress, toFloat: ToFloat)
    requires NumericBounds(fs + [f], toFloat) && Tight(fs, p, toFloat)
    ensures Tight(fs + [f], Advance(p, f, toFloat), toFloat)
  {
    var more := fs + [f];
    assert more[|fs|] == f;
    match p
    case Pinned(v) =>
      var i :| 0 <= i < |fs| && fs[i].Constant? && fs[i].op == EQ && fs[i].value == v;
      assert more[i] == fs[i];
    case Open(b) =>
      if BoundsStep(b, f, toFloat).Open? {
        TightBelowOneMore(fs, f, b, toFloat);
        TightAboveOneMore(fs, f, b, toFloat);
      }
  }

  lemma NumericPrefix(fs: seq<Filter>, toFloat: ToFloat)
    requires fs != [] && NumericBounds(fs, toFloat)
    ensures NumericBounds(fs[..|fs| - 1], toFloat)
  {
    var less := fs[..|fs| - 1];
    assert forall i :: 0 <= i < |less| ==> less[i] == fs[i];
  }

  /** The bounds are the tightest that the collected filters state; with an equality among
      them, its value. */
  lemma {:induction false} BoundsAreTight(fs: seq<Filter>, toFloat: ToFloat)
    requires NumericBounds(fs, toFloat)
    ensures Tight(fs, BoundsOf(fs, toFloat), toFloat)
  {
    if fs != [] {
      var n := |fs| - 1;
      NumericPrefix(fs, toFloat);
      BoundsAreTight(fs[..n], toFloat);
      TightOneMore(fs[..n], fs[n], BoundsOf(fs[..n], toFloat), toFloat);
      assert fs[..n] + [fs[n]] == fs;
    }
  }

  // ---------------------------------------------------------------------------
  // The loops
  // ---------------------------------------------------------------------------

  /** The loop over the children of an AND. */
  method AppendOnColumn(before: seq<Filter>, children: seq<Filter>, name: string) returns (result: seq<Filter>)
    ensures result == before + OnColumn(children, name)
  {
    result := before;
    for k := 0 to |children|
      invariant result == before + OnColumn(children[..k], name)
    {
      assert children[..k + 1][..k] == children[..k];
      if ColumnName(children[k]) == name { result := result + [children[k]]; }
    }
    assert children[..|children|] == children;
  }

  /** collectColumnFilters. */
  method CollectColumnFilters(filters: seq<Filter>, name: string) returns (result: seq<Filter>)
    ensures result == Collect(filters, name)
  {
    result := [];
    for i := 0 to |filters|
      invariant result == Collect(filters[..i], name)
    {
      var f := filters[i];
      assert filters[..i + 1][..i] == filters[..i];
      if ColumnName(f) == name {
        if f.AndFilter? {
          result := AppendOnColumn(result, f.children, name);
        } else {
          result := result + [f];
        }
      }
    }
    assert filters[..|filters|] == filters;
  }

  /** arrayBoundsScalar. */
  method ArrayBoundsScalar(values: seq<Value>, toFloat: ToFloat) returns (lo: Option<Value>, hi: Option<Value>)
    ensures Range(lo, hi) == ArrayBounds(values, toFloat)
  {
    lo, hi := None, None;
    for i := 0 to |values|
      invariant Range(lo, hi) == ArrayBounds(values[..i], toFloat)
    {
      assert values[..i + 1][..i] == values[..i];
      var v := values[i];
      if v.Null? { continue; }
      if lo.None? || FloatLess(toFloat, v, lo.value) { lo := Some(v); }
      if hi.None? || FloatLess(toFloat, hi.value, v) { hi := Some(v); }
    }
    assert values[..|values|] == values;
  }

  lemma {:induction false} PinnedStays(fs: seq<Filter>, n: nat, toFloat: ToFloat)
    requires n <= |fs| && BoundsOf(fs[..n], toFloat).Pinned?
    ensures BoundsOf(fs, toFloat) == BoundsOf(fs[..n], toFloat)
    decreases |fs| - n
  {
    if n == |fs| {
      assert fs[..n] == fs;
    } else {
      assert fs[..n + 1][..n] == fs[..n];
      PinnedStays(fs, n + 1, toFloat);
    }
  }

  /** One turn of the loop of GetColumnBounds. */
  method Narrow(b0: Bounds, f: Filter, toFloat: ToFloat) returns (r: Progress)
    ensures r == BoundsStep(b0, f, toFloat)
  {
    var b := b0;
    if f.InFilter? {
      var lo, hi := ArrayBoundsScalar(f.values, toFloat);
      if lo.None? || hi.None? { return Open(b); }
      if b.min.None? || FloatAtMost(toFloat, b.min.value, lo.value) { b := b.(min := lo, minInclusive := true); }
      if b.max.None? || FloatAtMost(toFloat, hi.value, b.max.value) { b := b.(max := hi, maxInclusive := true); }
    } else if f.Constant? {
      match f.op {
        case EQ => return Pinned(f.value);
        case GT => if b.min.None? ||
          FloatLess(toFloat, b.min.value, f.value) { b := b.(min := Some(f.value), minInclusive := false); }
        case GE => if b.min.None? ||
          FloatAtMost(toFloat, b.min.value, f.value) { b := b.(min := Some(f.value), minInclusive := true); }
        case LT => if b.max.None? ||
          FloatLess(toFloat, f.value, b.max.value) { b := b.(max := Some(f.value), maxInclusive := false); }
        case LE => if b.max.None? ||
          FloatAtMost(toFloat, f.value, b.max.value) { b := b.(max := Some(f.value), maxInclusive := true); }
        case NE =>
      }
    }
    return Open(b);
  }

  lemma BoundsOneMore(fs: seq<Filter>, i: nat, toFloat: ToFloat)
    requires i < |fs|
    ensures BoundsOf(fs[..i + 1], toFloat) == Advance(BoundsOf(fs[..i], toFloat), fs[i], toFloat)
  {
    assert fs[..i + 1][..i] == fs[..i];
  }

  /** The loop of GetColumnBounds, left early at an equality. */
  method RunBounds(fs: seq<Filter>, toFloat: ToFloat) returns (p: Progress)
    ensures p == BoundsOf(fs, toFloat)
  {
    p := Open(NO_BOUNDS);
    for i := 0 to |fs|
      invariant p.Open? && p == BoundsOf(fs[..i], toFloat)
    {
      BoundsOneMore(fs, i, toFloat);
      p := Narrow(p.bounds, fs[i], toFloat);
      if p.Pinned? {
        PinnedStays(fs, i + 1, toFloat);
        return;
      }
    }
    assert fs[..|fs|] == fs;
  }

  /** GetColumnBounds: bounds that every accepted row meets. */
  method GetColumnBounds(filters: seq<Filter>, name: string, toFloat: ToFloat,
                         ghost engine: Engine) returns (r: Option<Bounds>)
    ensures r == ColumnBounds(filters, name, toFloat)
    ensures FloatOrder(toFloat) && SetsResolved(Collect(filters, name), toFloat) ==>
      forall row :: AllTruth(filters, row, engine) == Yes && r.Some? ==> Admits(r.value, Cell(row, name))
  {
    forall row | AllTruth(filters, row, engine) == Yes && FloatOrder(toFloat) &&
      SetsResolved(Collect(filters, name), toFloat)
      ensures var b := ColumnBounds(filters, name, toFloat); b.Some? ==> Admits(b.value, Cell(row, name))
    {
      BoundsAreSound(filters, name, toFloat, row, engine);
    }
    var fs := CollectColumnFilters(filters, name);
    var p := RunBounds(fs, toFloat);
    match p {
      case Pinned(v) => return Some(Bounds(Some(v), true, Some(v), true));
      case Open(b) => return if b.min.None? && b.max.None? then None else Some(b);
    }
  }
}
