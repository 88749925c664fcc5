/** Discrete value sets derived from the pushed filters: GetColumnValues with its union over OR
    branches, and the typed EqualOrInValues (vgi/filter_helpers.go, vgi/filter_helpers_typed.go). */
module FilterValues {
  import opened Wrappers
  import opened SqlLogic
  import opened FilterExpr
  import opened FilterPruning

  // ---------------------------------------------------------------------------
  // Membership in concatenations
  // ---------------------------------------------------------------------------

  lemma MemberAppend(v: Value, a: seq<Value>, b: seq<Value>)
    ensures Member(v, a + b) == Yes <==> Member(v, a) == Yes || Member(v, b) == Yes
  {
    MemberIffEqualToSome(v, a);
    MemberIffEqualToSome(v, b);
    MemberIffEqualToSome(v, a + b);
    if Member(v, a) == Yes {
      var i :| 0 <= i < |a| && Compare(EQ, v, a[i]) == Yes;
      assert (a + b)[i] == a[i];
    }
    if Member(v, b) == Yes {
      var i :| 0 <= i < |b| && Compare(EQ, v, b[i]) == Yes;
      assert (a + b)[|a| + i] == b[i];
    }
  }

  lemma MemberOne(v: Value, w: Value)
    ensures Member(v, [w]) == Compare(EQ, v, w)
  {
    assert [w][1..] == [];
  }

  // ---------------------------------------------------------------------------
  // The union over OR branches
  // ---------------------------------------------------------------------------

  /** The values a branch pins the column to, if it pins it. */
  function Pins(f: Filter, name: string): Option<seq<Value>> {
    if ColumnName(f) != name then None
    else if f.Constant? && f.op == EQ then Some([f.value])
    else if f.InFilter? then Some(f.values)
    else None
  }

  function AllPins(fs: seq<Filter>, name: string): Option<seq<Value>> {
    if fs == [] then Some([])
    else
      match AllPins(fs[..|fs| - 1], name)
      case None => None
      case Some(before) =>
        match Pins(fs[|fs| - 1], name)
        case None => None
        case Some(vs) => Some(before + vs)
  }

  function Keys<K(==)>(vs: seq<Value>, key: Value -> K): set<K> {
    set v | v in vs :: key(v)
  }

  /** First-seen values, one per key. */
  function Dedupe<K(==)>(vs: seq<Value>, key: Value -> K): seq<Value> {
    if vs == [] then []
    else
      var before, v := Dedupe(vs[..|vs| - 1], key), vs[|vs| - 1];
      if key(v) in Keys(before, key) then before else before + [v]
  }

  /** orDiscreteValues. */
  function OrValues<K(==)>(children: seq<Filter>, name: string, key: Value -> K): Option<seq<Value>> {
    match AllPins(children, name)
    case None => None
    case Some(vs) => if vs == [] then None else Some(Dedupe(vs, key))
  }

  /** Equal keys mean equal values. */
  ghost predicate Faithful<K>(vs: seq<Value>, key: Value -> K) {
    forall v, w :: v in vs && w in vs && key(v) == key(w) ==> v == w
  }

  lemma {:induction false} DedupeKeeps<K>(vs: seq<Value>, key: Value -> K)
    requires Faithful(vs, key)
    ensures forall v :: v in Dedupe(vs, key) <==> v in vs
  {
    if vs != [] {
      var n := |vs| - 1;
      assert vs == vs[..n] + [vs[n]];
      assert Faithful(vs[..n], key);
      DedupeKeeps(vs[..n], key);
    }
  }

  lemma SameElementsSameMember(v: Value, a: seq<Value>, b: seq<Value>)
    requires forall w :: w in a ==> w in b
    requires Member(v, a) == Yes
    ensures Member(v, b) == Yes
  {
    MemberIffEqualToSome(v, a);
    MemberIffEqualToSome(v, b);
    var i :| 0 <= i < |a| && Compare(EQ, v, a[i]) == Yes;
    assert a[i] in b;
  }

  /** A pinning branch accepts exactly the rows whose cell is among its values. */
  lemma PinsExact(f: Filter, name: string, row: Row, engine: Engine)
    requires Pins(f, name).Some?
    ensures FilterTruth(f, row, engine) == Member(Cell(row, name), Pins(f, name).value)
  {
    if f.Constant? { MemberOne(Cell(row, name), f.value); }
  }

  lemma {:induction false} AllPinsExact(fs: seq<Filter>, name: string, row: Row, engine: Engine)
    requires AllPins(fs, name).Some?
    ensures AnyTruth(fs, row, engine) == Yes <==> Member(Cell(row, name), AllPins(fs, name).value) == Yes
  {
    if fs != [] {
      var n := |fs| - 1;
      AllPinsExact(fs[..n], name, row, engine);
      PinsExact(fs[n], name, row, engine);
      TruthOneMore(fs[..n], fs[n], row, engine);
      assert fs[..n] + [fs[n]] == fs;
      MemberAppend(Cell(row, name), AllPins(fs[..n], name).value, Pins(fs[n], name).value);
    }
  }

  /** The union over the branches is exact: the OR accepts a row exactly when the cell is in it. */
  lemma UnionIsExact<K>(children: seq<Filter>, name: string, key: Value -> K, row: Row, engine: Engine)
    requires OrValues(children, name, key).Some? && Faithful(AllPins(children, name).value, key)
    ensures AnyTruth(children, row, engine) == Yes <==>
      Member(Cell(row, name), OrValues(children, name, key).value) == Yes
  {
    var vs := AllPins(children, name).value;
    AllPinsExact(children, name, row, engine);
    DedupeKeeps(vs, key);
    if Member(Cell(row, name), vs) == Yes { SameElementsSameMember(Cell(row, name), vs, Dedupe(vs, key)); }
    if Member(Cell(row, name), Dedupe(vs, key)) == Yes { SameElementsSameMember(Cell(row, name), Dedupe(vs, key), vs); }
  }

  // ---------------------------------------------------------------------------
  // GetColumnValues
  // ---------------------------------------------------------------------------

  /** The discrete values of one collected filter. */
  function DiscreteValues<K(==)>(f: Filter, name: string, key: Value -> K): Option<seq<Value>> {
    if f.Constant? then (if f.op == EQ then Some([f.value]) else None)
    else if f.InFilter? then Some(f.values)
    else if f.OrFilter? then OrValues(f.children, name, key)
    else None
  }

  function FirstDiscrete<K(==)>(fs: seq<Filter>, name: string, key: Value -> K): Option<seq<Value>> {
    if fs == [] then None
    else if DiscreteValues(fs[0], name, key).Some? then DiscreteValues(fs[0], name, key)
    else FirstDiscrete(fs[1..], name, key)
  }

  /** The keys of every OR branch set are faithful. */
  ghost predicate KeysFaithful<K>(fs: seq<Filter>, name: string, key: Value -> K) {
    forall i :: 0 <= i < |fs| && fs[i].OrFilter? && AllPins(fs[i].children, name).Some? ==>
      Faithful(AllPins(fs[i].children, name).value, key)
  }

  /** A filter with discrete values accepts exactly the rows whose cell is one of them. */
  lemma DiscreteValuesExact<K>(f: Filter, name: string, key: Value -> K, row: Row, engine: Engine)
    requires ColumnName(f) == name && DiscreteValues(f, name, key).Some? && KeysFaithful([f], name, key)
    ensures FilterTruth(f, row, engine) == Yes <==> Member(Cell(row, name), DiscreteValues(f, name, key).value) == Yes
  {
    if f.OrFilter? {
      assert [f][0] == f;
      UnionIsExact(f.children, name, key, row, engine);
    } else {
      PinsExact(f, name, row, engine);
    }
  }

  lemma {:induction false} FirstDiscreteSound<K>(fs: seq<Filter>, name: string, key: Value -> K, row: Row,
                                                 engine: Engine)
    requires Accepts(fs, row, engine) && KeysFaithful(fs, name, key)
    requires forall i :: 0 <= i < |fs| ==> ColumnName(fs[i]) == name
    ensures FirstDiscrete(fs, name, key).Some? ==> Member(Cell(row, name), FirstDiscrete(fs, name, key).value) == Yes
  {
    if fs != [] {
      if DiscreteValues(fs[0], name, key).Some? {
        DiscreteValuesExact(fs[0], name, key, row, engine);
      } else {
        var rest := fs[1..];
        forall i | 0 <= i < |rest| ensures FilterTruth(rest[i], row, engine) == Yes &&
          ColumnName(rest[i]) == name { assert rest[i] == fs[i + 1]; }
        FirstDiscreteSound(rest, name, key, row, engine);
      }
    }
  }

  /** orDiscreteValues, with its seen set. */
  method OrDiscreteValues<K(==)>(children: seq<Filter>, name: string, key: Value -> K) returns (r: Option<seq<Value>>)
    ensures r == OrValues(children, name, key)
  {
    var scalars: seq<Value> := [];
    for i := 0 to |children|
      invariant AllPins(children[..i], name) == Some(scalars)
    {
      assert children[..i + 1][..i] == children[..i];
      var vs := Pins(children[i], name);
      if vs.None? {
        NotAllPinned(children, i + 1, name);
        return None;
      }
      scalars := scalars + vs.value;
    }
    assert children[..|children|] == children;
    if scalars == [] { return None; }
    var deduped := DedupeScalars(scalars, key);
    return Some(deduped);
  }

  method DedupeScalars<K(==)>(scalars: seq<Value>, key: Value -> K) returns (deduped: seq<Value>)
    ensures deduped == Dedupe(scalars, key)
  {
    var seen: set<K> := {};
    deduped := [];
    for i := 0 to |scalars|
      invariant deduped == Dedupe(scalars[..i], key)
      invariant seen == Keys(deduped, key)
    {
      assert scalars[..i + 1][..i] == scalars[..i];
      var k := key(scalars[i]);
      if k in seen { continue; }
      seen := seen + {k};
      deduped := deduped + [scalars[i]];
    }
    assert scalars[..|scalars|] == scalars;
  }

  lemma {:induction false} NotAllPinned(fs: seq<Filter>, n: nat, name: string)
    requires n <= |fs| && AllPins(fs[..n], name).None?
    ensures AllPins(fs, name).None?
    decreases |fs| - n
  {
    if n == |fs| {
      assert fs[..n] == fs;
    } else {
      assert fs[..n + 1][..n] == fs[..n];
      NotAllPinned(fs, n + 1, name);
    }
  }

  /** GetColumnValues: a set of values that holds the column's value in every row the filters
      accept, whenever one of them pins the column. */
  method GetColumnValues<K(==)>(filters: seq<Filter>, name: string, key: Value -> K,
                                ghost engine: Engine) returns (r: Option<seq<Value>>)
    ensures r == FirstDiscrete(Collect(filters, name), name, key)
    ensures KeysFaithful(Collect(filters, name), name, key) ==>
      forall row :: AllTruth(filters, row, engine) == Yes && r.Some? ==> Member(Cell(row, name), r.value) == Yes
  {
    var fs := CollectColumnFilters(filters, name);
    forall row | AllTruth(filters, row, engine) == Yes && KeysFaithful(fs, name, key)
      ensures FirstDiscrete(fs, name, key).Some? ==> Member(Cell(row, name), FirstDiscrete(fs, name, key).value) == Yes
    {
      AllTruthAccepts(filters, row, engine);
      CollectedHold(filters, name, row, engine);
      FirstDiscreteSound(fs, name, key, row, engine);
    }
    for i := 0 to |fs|
      invariant FirstDiscrete(fs, name, key) == FirstDiscrete(fs[i..], name, key)
    {
      assert fs[i..][1..] == fs[i + 1..];
      var f := fs[i];
      if f.Constant? && f.op == EQ { return Some([f.value]); }
      if f.InFilter? { return Some(f.values); }
      if f.OrFilter? {
        var union := OrDiscreteValues(f.children, name, key);
        if union.Some? { return union; }
      }
    }
    return None;
  }

  // ---------------------------------------------------------------------------
  // EqualOrInValues
  // ---------------------------------------------------------------------------

  /** The non-null values, in order. */
  function NonNull(vs: seq<Value>): seq<Value> {
    if vs == [] then [] else NonNull(vs[..|vs| - 1]) + (if vs[|vs| - 1].Null? then [] else [vs[|vs| - 1]])
  }

  /** collectEqOrIn: what one filter lists, if it is made of equalities and IN sets only.
      `fits` is "converts to the requested Go type". */
  function Listed(f: Filter, fits: Value -> bool): Option<seq<Value>>
    decreases f, 1
  {
    match f
    case Constant(_, _, op, v) => if op == EQ && !v.Null? && fits(v) then Some([v]) else None
    case InFilter(_, _, values) => if forall i :: 0 <= i < |values| ==>
      values[i].Null? || fits(values[i]) then Some(NonNull(values)) else None
    case AndFilter(_, _, children) => AllListed(children, fits)
    case _ => None
  }

  function AllListed(fs: seq<Filter>, fits: Value -> bool): Option<seq<Value>>
    decreases fs, 0
  {
    if fs == [] then Some([])
    else
      match Listed(fs[0], fits)
      case None => None
      case Some(head) =>
        match AllListed(fs[1..], fits)
        case None => None
        case Some(rest) => Some(head + rest)
  }

  lemma {:induction false} NonNullMembers(vs: seq<Value>, v: Value)
    ensures Member(v, vs) == Yes ==> Member(v, NonNull(vs)) == Yes
  {
    if vs != [] {
      var n := |vs| - 1;
      NonNullMembers(vs[..n], v);
      assert vs[..n] + [vs[n]] == vs;
      MemberAppend(v, vs[..n], [vs[n]]);
      MemberOne(v, vs[n]);
      if !vs[n].Null? { MemberAppend(v, NonNull(vs[..n]), [vs[n]]); }
      if vs[n].Null? { assert NonNull(vs) == NonNull(vs[..n]); }
    }
  }

  /** A projected filter that lists values and is rooted at a column accepts only rows whose cell
      in that column is listed, however its conjuncts are spread over columns. */
  lemma {:induction false} RootColumnIsListed(e: V2Expr, fits: Value -> bool, row: Row, engine: Engine)
    requires RootColumn(e) != "" && Listed(Project(e), fits).Some?
    requires FilterTruth(Project(e), row, engine) == Yes
    ensures Member(Cell(row, RootColumn(e)), Listed(Project(e), fits).value) == Yes
    decreases e, 1
  {
    match Project(e)
    case AndFilter(_, _, _) => FirstRootIsListed(e.children, fits, row, engine);
    case InFilter(_, _, values) => NonNullMembers(values, Cell(row, RootColumn(e)));
    case Constant(column, _, _, v) => MemberOne(Cell(row, column), v);
  }

  lemma {:induction false} FirstRootIsListed(es: seq<V2Expr>, fits: Value -> bool, row: Row, engine: Engine)
    requires FirstRootColumn(es) != "" && AllListed(ProjectAll(es), fits).Some?
    requires AllTruth(ProjectAll(es), row, engine) == Yes
    ensures Member(Cell(row, FirstRootColumn(es)), AllListed(ProjectAll(es), fits).value) == Yes
    decreases es, 0
  {
    var fs := ProjectAll(es);
    assert fs[1..] == ProjectAll(es[1..]);
    var head, rest := Listed(fs[0], fits).value, AllListed(fs[1..], fits).value;
    var v := Cell(row, FirstRootColumn(es));
    if RootColumn(es[0]) != "" {
      RootColumnIsListed(es[0], fits, row, engine);
    } else {
      FirstRootIsListed(es[1..], fits, row, engine);
    }
    MemberAppend(v, head, rest);
  }

  /** The values of `vs` added to a list that holds none twice. */
  function AddAll(out: seq<Value>, vs: seq<Value>): seq<Value> {
    if vs == [] then out
    else
      var before, v := AddAll(out, vs[..|vs| - 1]), vs[|vs| - 1];
      if v in before then before else before + [v]
  }

  lemma {:induction false} AddAllSplit(out: seq<Value>, a: seq<Value>, b: seq<Value>)
    ensures AddAll(out, a + b) == AddAll(AddAll(out, a), b)
  {
    if b == [] {
      assert a + b == a;
    } else {
      var n := |b| - 1;
      assert (a + b)[..|a + b| - 1] == a + b[..n];
      AddAllSplit(out, a, b[..n]);
    }
  }

  lemma {:induction false} AddAllMembers(out: seq<Value>, vs: seq<Value>)
    ensures forall v :: v in AddAll(out, vs) <==> v in out || v in vs
  {
    if vs != [] {
      AddAllMembers(out, vs[..|vs| - 1]);
      assert vs == vs[..|vs| - 1] + [vs[|vs| - 1]];
    }
  }

  method AddValues(out: seq<Value>, seen: set<Value>, vs: seq<Value>) returns (out': seq<Value>, seen': set<Value>)
    requires forall v :: v in seen <==> v in out
    ensures out' == AddAll(out, vs)
    ensures forall v :: v in seen' <==> v in out'
  {
    out', seen' := out, seen;
    for i := 0 to |vs|
      invariant out' == AddAll(out, vs[..i])
      invariant forall v :: v in seen' <==> v in out'
    {
      assert vs[..i + 1][..i] == vs[..i];
      if vs[i] !in seen' {
        seen' := seen' + {vs[i]};
        out' := out' + [vs[i]];
      }
    }
    assert vs[..|vs|] == vs;
  }

  lemma {:induction false} AllListedOneMore(fs: seq<Filter>, f: Filter, fits: Value -> bool)
    ensures AllListed(fs + [f], fits) ==
      if AllListed(fs, fits).None? || Listed(f, fits).None? then None
      else Some(AllListed(fs, fits).value + Listed(f, fits).value)
  {
    if fs == [] {
      assert fs + [f] == [f] && [f][1..] == [];
      if Listed(f, fits).Some? {
        assert Listed(f, fits).value + [] == Listed(f, fits).value;
        assert AllListed(fs, fits).value + Listed(f, fits).value == Listed(f, fits).value;
      }
    } else {
      AllListedOneMore(fs[1..], f, fits);
      assert (fs + [f])[0] == fs[0] && (fs + [f])[1..] == fs[1..] + [f];
      if Listed(fs[0], fits).Some? && AllListed(fs[1..], fits).Some? && Listed(f, fits).Some? {
        var head, rest, last := Listed(fs[0], fits).value, AllListed(fs[1..], fits).value, Listed(f, fits).value;
        assert head + (rest + last) == (head + rest) + last;
      }
    }
  }

  lemma {:induction false} UnlistedPrefix(fs: seq<Filter>, n: nat, fits: Value -> bool)
    requires n <= |fs| && AllListed(fs[..n], fits).None?
    ensures AllListed(fs, fits).None?
    decreases |fs| - n
  {
    if n == |fs| {
      assert fs[..n] == fs;
    } else {
      AllListedOneMore(fs[..n], fs[n], fits);
      assert fs[..n] + [fs[n]] == fs[..n + 1];
      UnlistedPrefix(fs, n + 1, fits);
    }
  }

  /** collectEqOrIn: walks one filter, appending what it lists to the shared list. */
  method CollectEqOrIn(f: Filter, fits: Value -> bool, out: seq<Value>, seen: set<Value>)
    returns (ok: bool, out': seq<Value>, seen': set<Value>)
    requires forall v :: v in seen <==> v in out
    ensures ok <==> Listed(f, fits).Some?
    ensures ok ==> out' == AddAll(out, Listed(f, fits).value)
    ensures forall v :: v in seen' <==> v in out'
    decreases f
  {
    ok, out', seen' := false, out, seen;
    if f.Constant? || f.InFilter? {
      var vs := Listed(f, fits);
      if vs.None? { return; }
      out', seen' := AddValues(out, seen, vs.value);
      ok := true;
    } else if f.AndFilter? {
      for i := 0 to |f.children|
        invariant AllListed(f.children[..i], fits).Some?
        invariant out' == AddAll(out, AllListed(f.children[..i], fits).value)
        invariant forall v :: v in seen' <==> v in out'
      {
        AllListedOneMore(f.children[..i], f.children[i], fits);
        assert f.children[..i] + [f.children[i]] == f.children[..i + 1];
        ok, out', seen' := CollectEqOrIn(f.children[i], fits, out', seen');
        if !ok {
          UnlistedPrefix(f.children, i + 1, fits);
          return;
        }
        AddAllSplit(out, AllListed(f.children[..i], fits).value, Listed(f.children[i], fits).value);
      }
      assert f.children[..|f.children|] == f.children;
      ok := true;
    }
  }

  lemma ListOneMore(fs: seq<Filter>, i: nat, fits: Value -> bool)
    requires i < |fs| && AllListed(fs[..i], fits).Some?
    ensures AllListed(fs[..i + 1], fits).Some? <==> Listed(fs[i], fits).Some?
    ensures Listed(fs[i], fits).Some? ==>
      AddAll([], AllListed(fs[..i + 1], fits).value) ==
        AddAll(AddAll([], AllListed(fs[..i], fits).value), Listed(fs[i], fits).value)
  {
    AllListedOneMore(fs[..i], fs[i], fits);
    assert fs[..i] + [fs[i]] == fs[..i + 1];
    if Listed(fs[i], fits).Some? {
      AddAllSplit([], AllListed(fs[..i], fits).value, Listed(fs[i], fits).value);
    }
  }

  /** EqualOrInValues: the values listed for a column, or `None` when some filter on it is of another shape. */
  method EqualOrInValues(filters: seq<Filter>, column: string, fits: Value -> bool) returns (r: Option<seq<Value>>)
    ensures var fs := OnColumn(filters, column); var vs := AllListed(fs, fits);
      r == if vs.None? || AddAll([], vs.value) == [] then None else Some(AddAll([], vs.value))
  {
    var fs := OnColumn(filters, column);
    if fs == [] { return None; }
    var out: seq<Value>, seen: set<Value> := [], {};
    for i := 0 to |fs|
      invariant AllListed(fs[..i], fits).Some?
      invariant out == AddAll([], AllListed(fs[..i], fits).value)
      invariant forall v :: v in seen <==> v in out
    {
      ListOneMore(fs, i, fits);
      var ok, out', seen' := CollectEqOrIn(fs[i], fits, out, seen);
      if !ok {
        UnlistedPrefix(fs, i + 1, fits);
        return None;
      }
      out, seen := out', seen';
    }
    assert fs[..|fs|] == fs;
    return if out == [] then None else Some(out);
  }

  /** What one projected filter on a column lists holds the cell of every row it accepts. */
  lemma OneListedIsSound(e: V2Expr, column: string, fits: Value -> bool, row: Row, engine: Engine)
    requires column != "" && ColumnName(Project(e)) == column && Listed(Project(e), fits).Some?
    requires FilterTruth(Project(e), row, engine) == Yes
    ensures Member(Cell(row, column), Listed(Project(e), fits).value) == Yes
  {
    var f := Project(e);
    match f
    case Constant(_, _, _, v) => MemberOne(Cell(row, column), v);
    case InFilter(_, _, values) => NonNullMembers(values, Cell(row, column));
    case AndFilter(_, _, _) => RootColumnIsListed(e, fits, row, engine);
  }

  lemma {:induction false} FirstOnColumn(es: seq<V2Expr>, column: string, row: Row, engine: Engine) returns (k: nat)
    requires OnColumn(ProjectAll(es), column) != []
    ensures k < |es| && Project(es[k]) == OnColumn(ProjectAll(es), column)[0] && ColumnName(Project(es[k])) == column
  {
    var n := |es| - 1;
    var fs := ProjectAll(es);
    assert fs[..n] == ProjectAll(es[..n]);
    if OnColumn(fs[..n], column) != [] {
      k := FirstOnColumn(es[..n], column, row, engine);
    } else {
      k := n;
    }
  }

  /** Pruning by EqualOrInValues never drops a row: for filters projected from v2 expressions, the
      list holds the column's value in every row they all accept, even where the conjuncts of an
      AND are about other columns. */
  lemma EqualOrInIsSound(es: seq<V2Expr>, column: string, fits: Value -> bool, row: Row, engine: Engine)
    requires column != "" && AllTruth(ProjectAll(es), row, engine) == Yes
    requires OnColumn(ProjectAll(es), column) != [] && AllListed(OnColumn(ProjectAll(es), column), fits).Some?
    ensures Member(Cell(row, column), AddAll([], AllListed(OnColumn(ProjectAll(es), column), fits).value)) == Yes
  {
    var fs := OnColumn(ProjectAll(es), column);
    var k := FirstOnColumn(es, column, row, engine);
    AllTruthAccepts(ProjectAll(es), row, engine);
    assert FilterTruth(ProjectAll(es)[k], row, engine) == Yes;
    OneListedIsSound(es[k], column, fits, row, engine);
    var head, rest, v := Listed(fs[0], fits).value, AllListed(fs[1..], fits).value, Cell(row, column);
    MemberAppend(v, head, rest);
    AddAllMembers([], head + rest);
    SameElementsSameMember(v, head + rest, AddAll([], head + rest));
  }

  // ---------------------------------------------------------------------------
  // HasOnlyEqualOrInOn
  // ---------------------------------------------------------------------------

  /** filterIsEqOrInOn. */
  predicate OnlyEqualOrInOn(f: Filter, allowed: set<string>)
    decreases f
  {
    match f
    case Constant(column, _, op, _) => column in allowed && op == EQ
    case InFilter(column, _, _) => column in allowed
    case AndFilter(_, _, children) => forall i :: 0 <= i < |children| ==> OnlyEqualOrInOn(children[i], allowed)
    case _ => false
  }

  /** Filters made only of equalities and IN sets on the allowed columns depend on nothing else:
      rows that agree there have the same truth value. */
  lemma {:induction false} OnlyAllowedColumnsMatter(f: Filter, allowed: set<string>, a: Row, b: Row, engine: Engine)
    requires OnlyEqualOrInOn(f, allowed)
    requires forall c :: c in allowed ==> Cell(a, c) == Cell(b, c)
    ensures FilterTruth(f, a, engine) == FilterTruth(f, b, engine)
    decreases f, 1
  {
    if f.AndFilter? { OnlyAllowedColumnsMatterAll(f.children, allowed, a, b, engine); }
  }

  lemma {:induction false} OnlyAllowedColumnsMatterAll(fs: seq<Filter>, allowed: set<string>, a: Row, b: Row,
                                                       engine: Engine)
    requires forall i :: 0 <= i < |fs| ==> OnlyEqualOrInOn(fs[i], allowed)
    requires forall c :: c in allowed ==> Cell(a, c) == Cell(b, c)
    ensures AllTruth(fs, a, engine) == AllTruth(fs, b, engine)
    decreases fs, 0
  {
    if fs != [] {
      OnlyAllowedColumnsMatter(fs[0], allowed, a, b, engine);
      OnlyAllowedColumnsMatterAll(fs[1..], allowed, a, b, engine);
    }
  }
}
