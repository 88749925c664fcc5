/** Rendering public filters as a SQL WHERE clause with positional parameters
    (vgi/filter_helpers.go). A clause is modelled as a small AST: placeholders are anonymous
    and take the parameters from left to right. */
module FilterSql {
  import opened Collections
  import opened SqlLogic
  import opened FilterExpr

  datatype Clause =
    | Against(column: string, op: CompareOp)      // one placeholder
    | NullTest(column: string, negated: bool)
    | InList(column: string, holes: nat)
    | Conjunction(parts: seq<Clause>)
    | Disjunction(parts: seq<Clause>)
    | Always                                         // 1=1

  /** The number of placeholders of a clause. */
  function Holes(c: Clause): nat
    decreases c, 1
  {
    match c
    case Against(_, _) => 1
    case NullTest(_, _) => 0
    case InList(_, holes) => holes
    case Conjunction(parts) => HolesIn(parts)
    case Disjunction(parts) => HolesIn(parts)
    case Always => 0
  }

  function HolesIn(cs: seq<Clause>): nat
    decreases cs, 0
  {
    if cs == [] then 0 else Holes(cs[0]) + HolesIn(cs[1..])
  }

  /** The truth value of a clause on a row, its placeholders filled from `params` left to right. */
  function ClauseTruth(c: Clause, params: seq<Value>, row: Row): Truth
    requires |params| == Holes(c)
    decreases c, 1
  {
    match c
    case Against(column, op) => Compare(op, Cell(row, column), params[0])
    case NullTest(column, negated) => if Cell(row, column).Null? != negated then Yes else No
    case InList(column, _) => Member(Cell(row, column), params)
    case Conjunction(parts) => AllClauses(parts, params, row)
    case Disjunction(parts) => AnyClause(parts, params, row)
    case Always => Yes
  }

  function AllClauses(cs: seq<Clause>, params: seq<Value>, row: Row): Truth
    requires |params| == HolesIn(cs)
    decreases cs, 0
  {
    if cs == [] then Yes
    else And3(ClauseTruth(cs[0], params[..Holes(cs[0])], row), AllClauses(cs[1..], params[Holes(cs[0])..], row))
  }

  function AnyClause(cs: seq<Clause>, params: seq<Value>, row: Row): Truth
    requires |params| == HolesIn(cs)
    decreases cs, 0
  {
    if cs == [] then No
    else Or3(ClauseTruth(cs[0], params[..Holes(cs[0])], row), AnyClause(cs[1..], params[Holes(cs[0])..], row))
  }

  datatype Rendered = Rendered(clause: Clause, params: seq<Value>)

  /** filterToSQL. A filter without a SQL form renders as `1=1`. */
  function Render(f: Filter): (r: Rendered)
    ensures |r.params| == Holes(r.clause)
    decreases f, 1
  {
    match f
    case Constant(column, _, op, value) => Rendered(Against(column, op), [value])
    case IsNullFilter(column, _) => Rendered(NullTest(column, false), [])
    case IsNotNullFilter(column, _) => Rendered(NullTest(column, true), [])
    case InFilter(column, _, values) => Rendered(InList(column, |values|), values)
    case AndFilter(_, _, children) => var (parts, params) := RenderAll(children); Rendered(Conjunction(parts), params)
    case OrFilter(_, _, children) => var (parts, params) := RenderAll(children); Rendered(Disjunction(parts), params)
    case View(_) => Rendered(Always, [])
  }

  function RenderAll(fs: seq<Filter>): (r: (seq<Clause>, seq<Value>))
    ensures |r.1| == HolesIn(r.0)
    decreases fs, 0
  {
    if fs == [] then ([], [])
    else
      var head := Render(fs[0]);
      var (parts, params) := RenderAll(fs[1..]);
      assert ([head.clause] + parts)[1..] == parts;
      ([head.clause] + parts, head.params + params)
  }

  lemma {:induction false} RenderOneMore(fs: seq<Filter>, f: Filter)
    ensures RenderAll(fs + [f]) == (RenderAll(fs).0 + [Render(f).clause], RenderAll(fs).1 + Render(f).params)
  {
    if fs == [] {
      assert fs + [f] == [f] && [f][1..] == [];
      assert RenderAll([f]).0 == [Render(f).clause] && RenderAll([f]).1 == Render(f).params;
      assert RenderAll(fs).0 + [Render(f).clause] == [Render(f).clause];
      assert RenderAll(fs).1 + Render(f).params == Render(f).params;
    } else {
      RenderOneMore(fs[1..], f);
      assert (fs + [f])[0] == fs[0] && (fs + [f])[1..] == fs[1..] + [f];
      var head, rest, last := Render(fs[0]), RenderAll(fs[1..]), Render(f);
      Regroup([head.clause], rest.0, [last.clause]);
      Regroup(head.params, rest.1, last.params);
    }
  }

  /** `ToSQL`: one condition per filter, joined by AND, with the parameters in placeholder order. */
  method ToSql(filters: seq<Filter>) returns (parts: seq<Clause>, params: seq<Value>)
    ensures (parts, params) == RenderAll(filters)
    ensures |params| == HolesIn(parts)
  {
    parts, params := [], [];
    for i := 0 to |filters|
      invariant (parts, params) == RenderAll(filters[..i])
    {
      var head := Render(filters[i]);
      RenderOneMore(filters[..i], filters[i]);
      assert filters[..i] + [filters[i]] == filters[..i + 1];
      parts, params := parts + [head.clause], params + head.params;
    }
    assert filters[..|filters|] == filters;
  }

  // ---------------------------------------------------------------------------
  // The clause over-approximates the filter, and equals it where nothing is dropped
  // ---------------------------------------------------------------------------

  /** `1=1` stands nowhere in the rendering. */
  predicate FullyRendered(f: Filter)
    decreases f
  {
    match f
    case AndFilter(_, _, children) => forall i :: 0 <= i < |children| ==> FullyRendered(children[i])
    case OrFilter(_, _, children) => forall i :: 0 <= i < |children| ==> FullyRendered(children[i])
    case View(_) => false
    case _ => true
  }

  /** The order FALSE, NULL, TRUE: how much a truth value lets through. */
  predicate AtMost(a: Truth, b: Truth) {
    a == b || a == No || b == Yes
  }

  lemma RenderAllHead(fs: seq<Filter>)
    requires fs != []
    ensures var (parts, params) := RenderAll(fs);
      && parts != [] && parts[0] == Render(fs[0]).clause && parts[1..] == RenderAll(fs[1..]).0
      && params[..Holes(parts[0])] == Render(fs[0]).params && params[Holes(parts[0])..] == RenderAll(fs[1..]).1
  {
  }

  ghost predicate Covers(f: Filter, row: Row, engine: Engine) {
    var truth, clause := FilterTruth(f, row, engine), ClauseTruth(Render(f).clause, Render(f).params, row);
    AtMost(truth, clause) && (FullyRendered(f) ==> truth == clause)
  }

  ghost predicate CoversAll(fs: seq<Filter>, row: Row, engine: Engine) {
    var (parts, params) := RenderAll(fs);
    && AtMost(AllTruth(fs, row, engine), AllClauses(parts, params, row))
    && AtMost(AnyTruth(fs, row, engine), AnyClause(parts, params, row))
    && ((forall i :: 0 <= i < |fs| ==> FullyRendered(fs[i])) ==>
          && AllTruth(fs, row, engine) == AllClauses(parts, params, row)
          && AnyTruth(fs, row, engine) == AnyClause(parts, params, row))
  }

  lemma LeafIsCovered(f: Filter, row: Row, engine: Engine)
    requires !f.AndFilter? && !f.OrFilter?
    ensures Covers(f, row, engine)
  {
  }

  lemma AndIsCovered(f: Filter, row: Row, engine: Engine)
    requires f.AndFilter? && CoversAll(f.children, row, engine)
    ensures Covers(f, row, engine)
  {
  }

  lemma OrIsCovered(f: Filter, row: Row, engine: Engine)
    requires f.OrFilter? && CoversAll(f.children, row, engine)
    ensures Covers(f, row, engine)
  {
  }

  lemma OneMoreIsCovered(fs: seq<Filter>, row: Row, engine: Engine)
    requires fs != [] && Covers(fs[0], row, engine) && CoversAll(fs[1..], row, engine)
    ensures CoversAll(fs, row, engine)
  {
    RenderAllHead(fs);
  }

  /** On every row the clause lets through at least what the filter does; when the filter is
      rendered in full, it has the same truth value. */
  lemma {:induction false} ClauseCoversFilter(f: Filter, row: Row, engine: Engine)
    ensures Covers(f, row, engine)
    decreases f, 1
  {
    match f
    case AndFilter(_, _, children) => ClausesCoverFilters(children, row, engine); AndIsCovered(f, row, engine);
    case OrFilter(_, _, children) => ClausesCoverFilters(children, row, engine); OrIsCovered(f, row, engine);
    case _ => LeafIsCovered(f, row, engine);
  }

  lemma {:induction false} ClausesCoverFilters(fs: seq<Filter>, row: Row, engine: Engine)
    ensures CoversAll(fs, row, engine)
    decreases fs, 0
  {
    if fs != [] {
      ClauseCoversFilter(fs[0], row, engine);
      ClausesCoverFilters(fs[1..], row, engine);
      OneMoreIsCovered(fs, row, engine);
    }
  }

  /** The whole pipeline: the WHERE clause of a set of v2 predicates is TRUE on every row on which
      they all are, and has exactly their conjunction's truth value when nothing rendered as `1=1`. */
  lemma WhereClauseIsSound(es: seq<V2Expr>, row: Row, engine: Engine)
    requires forall i :: 0 <= i < |es| ==> BoolColumnsTyped(es[i], row)
    ensures var (parts, params) := RenderAll(ProjectAll(es));
      && (EvalAnd(es, row, engine) == Yes ==> AllClauses(parts, params, row) == Yes)
      && ((forall i :: 0 <= i < |es| ==> FullyRendered(Project(es[i]))) ==>
        AllClauses(parts, params, row) == EvalAnd(es, row, engine))
  {
    ProjectionPreservesTruthAll(es, row, engine);
    ClausesCoverFilters(ProjectAll(es), row, engine);
  }
}
