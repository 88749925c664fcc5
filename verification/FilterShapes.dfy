/** Which v2 expressions have a public filter of their own, which one it is, and which predicates are
    rendered to SQL in full (vgi/filter_v2.go, `publicV2Filter`; vgi/filter_helpers.go). */
module FilterShapes {
  import opened SqlLogic
  import opened FilterExpr
  import opened FilterSql

  // ---------------------------------------------------------------------------
  // The shapes
  // ---------------------------------------------------------------------------

  predicate BoolColumn(e: V2Expr) {
    e.ColumnRef? && e.isBool
  }

  predicate NotBoolColumn(e: V2Expr) {
    e.Not? && BoolColumn(e.operand)
  }

  predicate ConvertibleLiteral(e: V2Expr) {
    e.Literal? && e.scalar
  }

  /** A column compared with a convertible literal by =, <>, <, <=, > or >=. */
  predicate ColumnFirst(e: V2Expr) {
    e.Comparison? && e.op.Plain? && e.left.ColumnRef? && ConvertibleLiteral(e.right)
  }

  predicate ColumnSecond(e: V2Expr) {
    e.Comparison? && e.op.Plain? && e.right.ColumnRef? && ConvertibleLiteral(e.left)
  }

  predicate ColumnNullTest(e: V2Expr) {
    e.IsNull? && e.operand.ColumnRef?
  }

  predicate ColumnInSet(e: V2Expr) {
    e.In? && !e.negated && e.operand.ColumnRef?
  }

  /** About one column, with a filter type of its own. */
  predicate Simple(e: V2Expr) {
    || BoolColumn(e) || NotBoolColumn(e) || ColumnFirst(e) || ColumnSecond(e) || ColumnNullTest(e) || ColumnInSet(e)
  }

  /** The column reference of a simple expression. */
  function ReferenceOf(e: V2Expr): (ref: V2Expr)
    requires Simple(e)
    ensures ref.ColumnRef?
  {
    if e.ColumnRef? then e
    else if e.Comparison? then (if e.left.ColumnRef? then e.left else e.right)
    else e.operand
  }

  /** The operator as read from the right operand. */
  function Turned(op: CompareOp): CompareOp {
    match op
    case EQ => EQ
    case NE => NE
    case LT => GT
    case GT => LT
    case LE => GE
    case GE => LE
  }

  /** An expression becomes a view exactly when it is neither about one column in one of the six
      shapes nor an AND or OR; the view is of the expression itself. */
  lemma ViewExactly(e: V2Expr)
    ensures Project(e).View? <==> !Simple(e) && !e.And? && !e.Or?
    ensures Project(e).View? ==> Project(e).expr == e
  {
  }

  /** A simple expression becomes the filter of its shape, on the name and the index of its column. */
  lemma SimpleProjection(e: V2Expr)
    requires Simple(e)
    ensures var f, ref := Project(e), ReferenceOf(e);
      && !f.View? && f.column == ref.name && f.index == ref.index && ColumnName(f) == ref.name
      && (BoolColumn(e) ==> f.Constant? && f.op == EQ && f.value == Flag(true))
      && (NotBoolColumn(e) ==> f.Constant? && f.op == EQ && f.value == Flag(false))
      && (ColumnFirst(e) ==> f.Constant? && f.op == e.op.op && f.value == e.right.value)
      && (ColumnSecond(e) ==> f.Constant? && f.op == Turned(e.op.op) && f.value == e.left.value)
      && (ColumnNullTest(e) ==> if e.negated then f.IsNotNullFilter? else f.IsNullFilter?)
      && (ColumnInSet(e) ==> f.InFilter? && f.values == e.values)
  {
  }

  /** AND and OR keep all their children, in order, and stand for the first column they name. */
  lemma NestedProjection(e: V2Expr)
    requires e.And? || e.Or?
    ensures var f := Project(e);
      && (e.And? ==> f.AndFilter?) && (e.Or? ==> f.OrFilter?)
      && f.index == -1 && f.column == FirstName(Names(e)) && |f.children| == |e.children|
      && forall i :: 0 <= i < |e.children| ==> f.children[i] == Project(e.children[i])
  {
    RootIsFirstName(e);
  }

  // ---------------------------------------------------------------------------
  // The column an expression stands for
  // ---------------------------------------------------------------------------

  /** The column names the search for a root column passes, from left to right: first operands only,
      but all children of AND and OR, and nothing inside a call. */
  function Names(e: V2Expr): seq<string>
    decreases e, 1
  {
    match e
    case ColumnRef(_, name, _) => [name]
    case FieldRef(parent, _, _) => Names(parent)
    case Literal(_, _) => []
    case Comparison(_, left, _) => Names(left)
    case And(children) => AllNames(children)
    case Or(children) => AllNames(children)
    case Not(operand) => Names(operand)
    case IsNull(operand, _) => Names(operand)
    case In(operand, _, _) => Names(operand)
    case Opaque(node, operands) => if operands == [] || node == "call" then [] else Names(operands[0])
  }

  function AllNames(es: seq<V2Expr>): seq<string>
    decreases es, 0
  {
    if es == [] then [] else Names(es[0]) + AllNames(es[1..])
  }

  /** The first name that is not empty, or "". */
  function FirstName(names: seq<string>): string {
    if names == [] then "" else if names[0] != "" then names[0] else FirstName(names[1..])
  }

  lemma {:induction false} FirstNameOfBoth(a: seq<string>, b: seq<string>)
    ensures FirstName(a + b) == if FirstName(a) != "" then FirstName(a) else FirstName(b)
  {
    if a == [] {
      assert a + b == b;
    } else {
      assert (a + b)[0] == a[0] && (a + b)[1..] == a[1..] + b;
      FirstNameOfBoth(a[1..], b);
    }
  }

  lemma {:induction false} RootIsFirstName(e: V2Expr)
    ensures RootColumn(e) == FirstName(Names(e))
    decreases e, 1
  {
    match e
    case ColumnRef(_, name, _) => assert [name][1..] == [];
    case FieldRef(parent, _, _) => RootIsFirstName(parent);
    case Comparison(_, left, _) => RootIsFirstName(left);
    case And(children) => RootsAreFirstNames(children);
    case Or(children) => RootsAreFirstNames(children);
    case Not(operand) => RootIsFirstName(operand);
    case IsNull(operand, _) => RootIsFirstName(operand);
    case In(operand, _, _) => RootIsFirstName(operand);
    case Opaque(node, operands) => if operands != [] && node != "call" { RootIsFirstName(operands[0]); }
    case Literal(_, _) =>
  }

  lemma {:induction false} RootsAreFirstNames(es: seq<V2Expr>)
    ensures FirstRootColumn(es) == FirstName(AllNames(es))
    decreases es, 0
  {
    if es != [] {
      RootIsFirstName(es[0]);
      RootsAreFirstNames(es[1..]);
      FirstNameOfBoth(Names(es[0]), AllNames(es[1..]));
    }
  }

  // ---------------------------------------------------------------------------
  // What is rendered in full
  // ---------------------------------------------------------------------------

  /** The leaves of the AND and OR nodes at the top of an expression. */
  function Leaves(e: V2Expr): seq<V2Expr>
    decreases e, 1
  {
    if e.And? || e.Or? then AllLeaves(e.children) else [e]
  }

  function AllLeaves(es: seq<V2Expr>): seq<V2Expr>
    decreases es, 0
  {
    if es == [] then [] else Leaves(es[0]) + AllLeaves(es[1..])
  }

  predicate AllSimple(es: seq<V2Expr>) {
    forall i :: 0 <= i < |es| ==> Simple(es[i])
  }

  lemma AllSimpleSplits(a: seq<V2Expr>, b: seq<V2Expr>)
    ensures AllSimple(a + b) <==> AllSimple(a) && AllSimple(b)
  {
    assert forall i :: 0 <= i < |a| ==> (a + b)[i] == a[i];
    assert forall i :: 0 <= i < |b| ==> (a + b)[|a| + i] == b[i];
  }

  /** A predicate is rendered without `1=1` exactly when every leaf under its ANDs and ORs is simple. */
  lemma {:induction false} RenderedInFullExactly(e: V2Expr)
    ensures FullyRendered(Project(e)) <==> AllSimple(Leaves(e))
    decreases e, 1
  {
    if e.And? || e.Or? {
      RenderedInFullAll(e.children);
    } else {
      ViewExactly(e);
      assert Leaves(e)[0] == e;
    }
  }

  lemma {:induction false} RenderedInFullAll(es: seq<V2Expr>)
    ensures (forall i :: 0 <= i < |es| ==> FullyRendered(Project(es[i]))) <==> AllSimple(AllLeaves(es))
    decreases es, 0
  {
    if es != [] {
      RenderedInFullExactly(es[0]);
      RenderedInFullAll(es[1..]);
      AllSimpleSplits(Leaves(es[0]), AllLeaves(es[1..]));
      assert forall i :: 0 < i < |es| ==> es[i] == es[1..][i - 1];
    }
  }

  /** So the WHERE clause of predicates whose leaves are all simple has, on every row, exactly the truth
      value of their conjunction. */
  lemma WhereClauseIsExact(es: seq<V2Expr>, row: Row, engine: Engine)
    requires forall i :: 0 <= i < |es| ==> BoolColumnsTyped(es[i], row)
    requires AllSimple(AllLeaves(es))
    ensures var (parts, params) := RenderAll(ProjectAll(es));
      AllClauses(parts, params, row) == EvalAnd(es, row, engine)
  {
    RenderedInFullAll(es);
    WhereClauseIsSound(es, row, engine);
  }
}
