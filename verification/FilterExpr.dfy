/** The v2 filter expression tree, the simpler public filter language it is projected
    onto, and the proof that the projection keeps the truth value of every row
    (vgi/filter_v2.go, vgi/filter_pushdown.go). */
module FilterExpr {
  import opened SqlLogic

  /** The eight comparison operators of the v2 grammar. */
  datatype V2Op = Plain(op: CompareOp) | DistinctFrom | NotDistinctFrom

  /** A parsed v2 expression. `isBool` is "the column resolved to BOOLEAN"; `scalar` is
      "the literal converts to a scalar". Nodes the projection never looks into
      (arithmetic, negate, cast, call, runtime_filter) are `Opaque`. */
  datatype V2Expr =
    | ColumnRef(index: int, name: string, isBool: bool)
    | FieldRef(parent: V2Expr, fieldIndex: int, fieldName: string)
    | Literal(value: Value, scalar: bool)
    | Comparison(op: V2Op, left: V2Expr, right: V2Expr)
    | And(children: seq<V2Expr>)
    | Or(children: seq<V2Expr>)
    | Not(operand: V2Expr)
    | IsNull(operand: V2Expr, negated: bool)
    | In(operand: V2Expr, values: seq<Value>, negated: bool)
    | Opaque(node: string, operands: seq<V2Expr>)

  /** The value the engine gives to a node the projection does not interpret. */
  type Engine = (V2Expr, Row) -> Value

  /** The value of an expression on a row. */
  function Eval(e: V2Expr, row: Row, engine: Engine): Value
    decreases e, 1
  {
    match e
    case ColumnRef(_, name, _) => Cell(row, name)
    case FieldRef(_, _, _) => engine(e, row)
    case Literal(value, _) => value
    case Comparison(op, left, right) =>
      var l, r := Eval(left, row, engine), Eval(right, row, engine);
      (match op
       case Plain(c) => ValueOf(Compare(c, l, r))
       case DistinctFrom => Flag(Distinct(l, r))
       case NotDistinctFrom => Flag(!Distinct(l, r)))
    case And(children) => ValueOf(EvalAnd(children, row, engine))
    case Or(children) => ValueOf(EvalOr(children, row, engine))
    case Not(operand) => ValueOf(Not3(TruthOf(Eval(operand, row, engine))))
    case IsNull(operand, negated) => Flag(Eval(operand, row, engine).Null? != negated)
    case In(operand, values, negated) =>
      var m := Member(Eval(operand, row, engine), values);
      ValueOf(if negated then Not3(m) else m)
    case Opaque(_, _) => engine(e, row)
  }

  function EvalAnd(es: seq<V2Expr>, row: Row, engine: Engine): Truth
    decreases es, 0
  {
    if es == [] then Yes
    else And3(TruthOf(Eval(es[0], row, engine)), EvalAnd(es[1..], row, engine))
  }

  function EvalOr(es: seq<V2Expr>, row: Row, engine: Engine): Truth
    decreases es, 0
  {
    if es == [] then No
    else Or3(TruthOf(Eval(es[0], row, engine)), EvalOr(es[1..], row, engine))
  }

  /** The public filter types that a projection can produce. */
  datatype Filter =
    | Constant(column: string, index: int, op: CompareOp, value: Value)
    | IsNullFilter(column: string, index: int)
    | IsNotNullFilter(column: string, index: int)
    | InFilter(column: string, index: int, values: seq<Value>)
    | AndFilter(column: string, index: int, children: seq<Filter>)
    | OrFilter(column: string, index: int, children: seq<Filter>)
    | View(expr: V2Expr)

  /** The truth value of a filter on a row. */
  function FilterTruth(f: Filter, row: Row, engine: Engine): Truth
    decreases f, 1
  {
    match f
    case Constant(column, _, op, value) => Compare(op, Cell(row, column), value)
    case IsNullFilter(column, _) => if Cell(row, column).Null? then Yes else No
    case IsNotNullFilter(column, _) => if Cell(row, column).Null? then No else Yes
    case InFilter(column, _, values) => Member(Cell(row, column), values)
    case AndFilter(_, _, children) => AllTruth(children, row, engine)
    case OrFilter(_, _, children) => AnyTruth(children, row, engine)
    case View(expr) => TruthOf(Eval(expr, row, engine))
  }

  function AllTruth(fs: seq<Filter>, row: Row, engine: Engine): Truth
    decreases fs, 0
  {
    if fs == [] then Yes
    else And3(FilterTruth(fs[0], row, engine), AllTruth(fs[1..], row, engine))
  }

  function AnyTruth(fs: seq<Filter>, row: Row, engine: Engine): Truth
    decreases fs, 0
  {
    if fs == [] then No
    else Or3(FilterTruth(fs[0], row, engine), AnyTruth(fs[1..], row, engine))
  }

  /** The first non-empty column name along the tree, or "". */
  function RootColumn(e: V2Expr): string
    decreases e, 1
  {
    match e
    case ColumnRef(_, name, _) => name
    case FieldRef(parent, _, _) => RootColumn(parent)
    case Literal(_, _) => ""
    case Comparison(_, left, _) => RootColumn(left)
    case And(children) => FirstRootColumn(children)
    case Or(children) => FirstRootColumn(children)
    case Not(operand) => RootColumn(operand)
    case IsNull(operand, _) => RootColumn(operand)
    case In(operand, _, _) => RootColumn(operand)
    case Opaque(node, operands) =>
      // a call keeps its operands as arguments, which the search does not enter
      if operands == [] || node == "call" then "" else RootColumn(operands[0])
  }

  function FirstRootColumn(es: seq<V2Expr>): string
    decreases es, 0
  {
    if es == [] then ""
    else
      var name := RootColumn(es[0]);
      if name != "" then name else FirstRootColumn(es[1..])
  }

  function ColumnName(f: Filter): string {
    if f.View? then RootColumn(f.expr) else f.column
  }

  /** The operator seen from the other side of the comparison. */
  function Mirror(op: V2Op): V2Op {
    match op
    case Plain(LT) => Plain(GT)
    case Plain(LE) => Plain(GE)
    case Plain(GT) => Plain(LT)
    case Plain(GE) => Plain(LE)
    case _ => op
  }

  predicate ColumnAgainstLiteral(left: V2Expr, right: V2Expr) {
    left.ColumnRef? && right.Literal?
  }

  /** publicV2Filter: the equivalent public filter where there is one, a view of the expression otherwise. */
  function Project(e: V2Expr): Filter
    decreases e, 1
  {
    var negatedColumn := e.Not? && e.operand.ColumnRef?;
    if e.ColumnRef? && e.isBool then Constant(e.name, e.index, EQ, Flag(true))
    else if negatedColumn && e.operand.isBool then
      Constant(e.operand.name, e.operand.index, EQ, Flag(false))
    else match e
      case Comparison(op0, left, right) =>
        var direct := ColumnAgainstLiteral(left, right);
        var ref, literal, op := if direct then left else right,
                                if direct then right else left,
                                if direct then op0 else Mirror(op0);
        if ColumnAgainstLiteral(ref, literal) && op.Plain? && literal.scalar
        then Constant(ref.name, ref.index, op.op, literal.value)
        else View(e)
      case IsNull(operand, negated) =>
        if !operand.ColumnRef? then View(e)
        else if negated then IsNotNullFilter(operand.name, operand.index)
        else IsNullFilter(operand.name, operand.index)
      case In(operand, values, negated) =>
        if !negated && operand.ColumnRef? then InFilter(operand.name, operand.index, values) else View(e)
      case And(children) => AndFilter(RootColumn(e), -1, ProjectAll(children))
      case Or(children) => OrFilter(RootColumn(e), -1, ProjectAll(children))
      case _ => View(e)
  }

  function ProjectAll(es: seq<V2Expr>): (fs: seq<Filter>)
    ensures |fs| == |es|
    ensures forall i :: 0 <= i < |es| ==> fs[i] == Project(es[i])
    decreases es, 0
  {
    if es == [] then [] else [Project(es[0])] + ProjectAll(es[1..])
  }

  /** Columns the expression declares BOOLEAN hold booleans (or NULL) in the row. */
  predicate BoolColumnsTyped(e: V2Expr, row: Row)
    decreases e
  {
    match e
    case ColumnRef(_, name, isBool) => isBool ==> Cell(row, name).Null? || Cell(row, name).Flag?
    case And(children) => forall i :: 0 <= i < |children| ==> BoolColumnsTyped(children[i], row)
    case Or(children) => forall i :: 0 <= i < |children| ==> BoolColumnsTyped(children[i], row)
    case Not(operand) => BoolColumnsTyped(operand, row)
    case _ => true
  }

  /** The projection gives every row the truth value of the expression it came from:
      TRUE, FALSE and NULL alike, through operand swaps, bare boolean columns and their
      negation, and any nesting of AND and OR. */
  lemma {:induction false} ProjectionPreservesTruth(e: V2Expr, row: Row, engine: Engine)
    requires BoolColumnsTyped(e, row)
    ensures FilterTruth(Project(e), row, engine) == TruthOf(Eval(e, row, engine))
    decreases e, 1
  {
    match e
    case And(children) => ProjectionPreservesTruthAll(children, row, engine);
    case Or(children) => ProjectionPreservesTruthAll(children, row, engine);
    case Comparison(_, _, _) => ComparisonPreservesTruth(e, row, engine);
    case Not(operand) =>
      if operand.ColumnRef? && operand.isBool {
        assert BoolColumnsTyped(operand, row);
      }
    case _ =>
  }

  lemma ComparisonPreservesTruth(e: V2Expr, row: Row, engine: Engine)
    requires e.Comparison?
    ensures FilterTruth(Project(e), row, engine) == TruthOf(Eval(e, row, engine))
  {
    var Comparison(op, left, right) := e;
    if !ColumnAgainstLiteral(left, right) && ColumnAgainstLiteral(right, left) && op.Plain? {
      MirrorSwaps(op.op, Cell(row, right.name), left.value);
    }
  }

  lemma {:induction false} ProjectionPreservesTruthAll(es: seq<V2Expr>, row: Row, engine: Engine)
    requires forall i :: 0 <= i < |es| ==> BoolColumnsTyped(es[i], row)
    ensures AllTruth(ProjectAll(es), row, engine) == EvalAnd(es, row, engine)
    ensures AnyTruth(ProjectAll(es), row, engine) == EvalOr(es, row, engine)
    decreases es, 0
  {
    if es != [] {
      ProjectionPreservesTruth(es[0], row, engine);
      ProjectionPreservesTruthAll(es[1..], row, engine);
      assert ProjectAll(es)[1..] == ProjectAll(es[1..]);
    }
  }

  lemma MirrorSwaps(op: CompareOp, a: Value, b: Value)
    ensures Mirror(Plain(op)).Plain?
    ensures Compare(Mirror(Plain(op)).op, a, b) == Compare(op, b, a)
  {
  }

  lemma Truths(a: Truth, b: Truth, c: Truth)
    ensures And3(a, And3(b, c)) == And3(And3(a, b), c) && Or3(a, Or3(b, c)) == Or3(Or3(a, b), c)
  {
  }

  lemma {:induction false} TruthOneMore(fs: seq<Filter>, f: Filter, row: Row, engine: Engine)
    ensures AllTruth(fs + [f], row, engine) == And3(AllTruth(fs, row, engine), FilterTruth(f, row, engine))
    ensures AnyTruth(fs + [f], row, engine) == Or3(AnyTruth(fs, row, engine), FilterTruth(f, row, engine))
  {
    if fs == [] {
      assert fs + [f] == [f] && [f][1..] == [];
    } else {
      TruthOneMore(fs[1..], f, row, engine);
      assert (fs + [f])[1..] == fs[1..] + [f] && (fs + [f])[0] == fs[0];
      Truths(FilterTruth(fs[0], row, engine), AllTruth(fs[1..], row, engine), FilterTruth(f, row, engine));
      Truths(FilterTruth(fs[0], row, engine), AnyTruth(fs[1..], row, engine), FilterTruth(f, row, engine));
    }
  }
}
