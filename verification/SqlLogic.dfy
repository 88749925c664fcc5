/** SQL values, comparisons and three-valued logic: the semantics that the filter
    projection, the SQL rendering and the pruning helpers are proved against. */
module SqlLogic {
  import opened Strings

  /** A SQL truth value. */
  datatype Truth = Yes | No | Unknown

  function And3(a: Truth, b: Truth): Truth {
    if a == No || b == No then No
    else if a == Yes && b == Yes then Yes
    else Unknown
  }

  function Or3(a: Truth, b: Truth): Truth {
    if a == Yes || b == Yes then Yes
    else if a == No && b == No then No
    else Unknown
  }

  function Not3(a: Truth): Truth {
    match a
    case Yes => No
    case No => Yes
    case Unknown => Unknown
  }

  /** A scalar. `Int` and `Float` stand for the ten numeric Arrow types; `Text`, `Flag`
      and `Day` for the types that the float64 comparators do not order. */
  datatype Value = Null | Int(n: int) | Float(r: real) | Text(s: string) | Flag(b: bool) | Day(d: int)

  predicate Numeric(v: Value) {
    v.Int? || v.Float?
  }

  function Number(v: Value): real
    requires Numeric(v)
  {
    if v.Int? then v.n as real else v.r
  }

  /** Two non-null values of one logical type; the expression parser admits no other comparison. */
  predicate Comparable(a: Value, b: Value) {
    || (Numeric(a) && Numeric(b))
    || (a.Text? && b.Text?)
    || (a.Flag? && b.Flag?)
    || (a.Day? && b.Day?)
  }

  predicate Less(a: Value, b: Value)
    requires Comparable(a, b)
  {
    if Numeric(a) then Number(a) < Number(b)
    else if a.Text? then TextLess(a.s, b.s)
    else if a.Flag? then !a.b && b.b
    else a.d < b.d
  }

  predicate Same(a: Value, b: Value)
    requires Comparable(a, b)
  {
    if Numeric(a) then Number(a) == Number(b) else a == b
  }

  /** The six comparison operators a constant filter can carry. */
  datatype CompareOp = EQ | NE | LT | LE | GT | GE

  function Compare(op: CompareOp, a: Value, b: Value): Truth {
    if !Comparable(a, b) then Unknown
    else
      var holds := match op
        case EQ => Same(a, b)
        case NE => !Same(a, b)
        case LT => Less(a, b)
        case LE => !Less(b, a)
        case GT => Less(b, a)
        case GE => !Less(a, b);
      if holds then Yes else No
  }

  /** `a IS DISTINCT FROM b`, which is never NULL. */
  predicate Distinct(a: Value, b: Value) {
    if a.Null? || b.Null? then a != b
    else if Comparable(a, b) then !Same(a, b)
    else true
  }

  /** `v IN (set)` as SQL defines it: the disjunction of the equalities, FALSE for the empty set. */
  function Member(v: Value, values: seq<Value>): Truth {
    if values == [] then No
    else Or3(Compare(EQ, v, values[0]), Member(v, values[1..]))
  }

  function TruthOf(v: Value): Truth {
    if v.Flag? then (if v.b then Yes else No) else Unknown
  }

  function ValueOf(t: Truth): Value {
    match t
    case Yes => Flag(true)
    case No => Flag(false)
    case Unknown => Null
  }

  /** A row, by column name. A column the row does not hold reads as NULL. */
  type Row = map<string, Value>

  function Cell(row: Row, column: string): Value {
    if column in row then row[column] else Null
  }

  /** `IN` holds exactly when some listed value equals the operand. */
  lemma {:induction false} MemberIffEqualToSome(v: Value, values: seq<Value>)
    ensures Member(v, values) == Yes <==> exists i :: 0 <= i < |values| && Compare(EQ, v, values[i]) == Yes
  {
    if values != [] {
      var rest := values[1..];
      MemberIffEqualToSome(v, rest);
      if Member(v, rest) == Yes {
        var i :| 0 <= i < |rest| && Compare(EQ, v, rest[i]) == Yes;
        assert rest[i] == values[i + 1];
      }
      if i :| 0 <= i < |values| && Compare(EQ, v, values[i]) == Yes {
        if i > 0 { assert rest[i - 1] == values[i]; }
      }
    }
  }
}
