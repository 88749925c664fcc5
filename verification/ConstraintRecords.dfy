/**
  Checking a table's constraint records (vgi/constraint_records.go,
  `checkTableConstraints` and `ServedTableColumns`): which record sets are
  accepted, which column paths they require to be non-NULL, and what the served
  schema then says.
 */
module ConstraintRecords {
  import opened Wrappers
  import opened PathKeys
  import opened Nullability

  datatype Kind = NotNull | PrimaryKey | Unique | Check | ForeignKey | Unknown

  /** A decoded record with the wire details the check reads. */
  datatype Record = Record(
    size: nat,
    id: string,
    schemaPath: seq<string>,
    table: string,
    kind: Kind,
    columns: seq<seq<string>>,
    enforced: bool,
    allRows: bool,
    declaredName: string,
    checkSql: string,
    checkProfile: string,
    checkSchemaPath: seq<string>,
    checkDefaultContext: bool,
    hasForeignKey: bool,
    hasTarget: bool,
    refSchemaPath: seq<string>,
    refTable: string,
    refColumns: seq<seq<string>>,
    targetSchemaPath: seq<string>,
    targetOwner: string,
    fkMatch: string,
    fkOnUpdate: string,
    fkOnDelete: string)

  /** What the records are checked against: the serving table, its columns if
      known, the grammar of CHECK expressions and the lower-casing of labels. */
  datatype Target = Target(
    schemaPath: seq<string>,
    checkSchema: bool,
    table: string,
    columns: Option<seq<Field>>,
    checkSqlOk: string -> bool,
    lower: string -> string)

  const MAX_RECORDS := 1024
  const MAX_BYTES := 8 * 1024 * 1024
  const SCALAR_EXPRESSION_PROFILE := "vgi.expression.duckdb.scalar.v1"

  predicate ValidIdentifier(value: string) {
    value != "" && |value| <= 4096 && '\0' !in value
  }

  predicate PathOk(path: seq<string>) {
    0 < |path| <= 64 && forall i :: 0 <= i < |path| ==> ValidIdentifier(path[i])
  }

  predicate NoRepeat(paths: seq<seq<string>>) {
    forall i, j :: 0 <= i < j < |paths| ==> paths[i] != paths[j]
  }

  predicate ColumnPathsOk(paths: seq<seq<string>>) {
    |paths| <= 1024 && NoRepeat(paths) && forall i :: 0 <= i < |paths| ==> PathOk(paths[i])
  }

  /** The last column that carries the row-id key, or -1. */
  function RowIdIndex(fields: seq<Field>): (i: int)
    ensures -1 <= i < |fields|
    ensures i >= 0 ==> fields[i].rowId
    ensures forall j :: i < j < |fields| ==> !fields[j].rowId
  {
    if fields == [] then -1
    else if fields[|fields| - 1].rowId then |fields| - 1
    else RowIdIndex(fields[..|fields| - 1])
  }

  /** The column a path starts at is not the row-id column. */
  predicate AvoidsRowId(fields: seq<Field>, name: string) {
    var r := RowIdIndex(fields);
    !(r >= 0 && fields[r].name == name)
  }

  predicate NotNullOk(t: Target, r: Record) {
    |r.columns| == 1 &&
    (t.columns.Some? ==> Resolves(t.columns.value, r.columns[0]) && AvoidsRowId(t.columns.value, r.columns[0][0]))
  }

  predicate KeyColumnOk(t: Target, path: seq<string>) {
    |path| == 1 && (t.columns.Some? ==> Resolves(t.columns.value, path) && AvoidsRowId(t.columns.value, path[0]))
  }

  predicate KeyColumnsOk(t: Target, r: Record) {
    forall i :: 0 <= i < |r.columns| ==> KeyColumnOk(t, r.columns[i])
  }

  predicate CheckOk(t: Target, r: Record) {
    && r.checkProfile == SCALAR_EXPRESSION_PROFILE
    && r.checkSchemaPath == r.schemaPath
    && r.checkDefaultContext
    && t.checkSqlOk(r.checkSql)
  }

  predicate ForeignKeyOk(r: Record) {
    && r.refSchemaPath == r.schemaPath && r.targetSchemaPath == r.schemaPath && r.targetOwner == r.refTable
    && |r.refColumns| == |r.columns|
    && (forall i :: 0 <= i < |r.refColumns| ==> |r.refColumns[i]| == 1)
    && r.fkMatch == "SIMPLE"
    && r.fkOnUpdate in {"NO_ACTION", "RESTRICT"} && r.fkOnDelete in {"NO_ACTION", "RESTRICT"}
  }

  predicate IdentityOk(t: Target, r: Record) {
    && r.size > 0
    && ValidIdentifier(r.id) && |r.schemaPath| == 1 && ValidIdentifier(r.schemaPath[0])
    && r.table == t.table && (t.checkSchema ==> r.schemaPath == t.schemaPath)
    && r.enforced && r.allRows
    && (r.declaredName != "" ==> ValidIdentifier(r.declaredName))
  }

  predicate PayloadOk(t: Target, r: Record) {
    && ColumnPathsOk(r.columns)
    && (r.kind.Check? <==> r.checkSql != "") && (r.kind.Check? <==> r.columns == [])
    && (r.kind.ForeignKey? <==> r.hasForeignKey) && (r.kind.ForeignKey? <==> r.hasTarget)
    && match r.kind {
         case Check => CheckOk(t, r)
         case NotNull => NotNullOk(t, r)
         case PrimaryKey => KeyColumnsOk(t, r)
         case Unique => KeyColumnsOk(t, r)
         case ForeignKey => KeyColumnsOk(t, r) && ForeignKeyOk(r)
         case Unknown => false
       }
  }

  predicate RecordOk(t: Target, r: Record) {
    IdentityOk(t, r) && PayloadOk(t, r)
  }

  /** Two records of one table do not clash. */
  predicate Compatible(t: Target, a: Record, b: Record) {
    && a.id != b.id
    && (a.declaredName != "" && b.declaredName != "" ==> t.lower(a.declaredName) != t.lower(b.declaredName))
    && !(a.kind.PrimaryKey? && b.kind.PrimaryKey?)
  }

  function TotalSize(records: seq<Record>): nat {
    if records == [] then 0 else TotalSize(records[..|records| - 1]) + records[|records| - 1].size
  }

  predicate Pairwise(t: Target, records: seq<Record>) {
    forall i, j :: 0 <= i < j < |records| ==> Compatible(t, records[i], records[j])
  }

  /** The accepted record sets. */
  predicate Accepted(t: Target, records: seq<Record>) {
    && |records| <= MAX_RECORDS && TotalSize(records) <= MAX_BYTES
    && (forall i :: 0 <= i < |records| ==> RecordOk(t, records[i]))
    && Pairwise(t, records)
  }

  /** A NOT_NULL or PRIMARY_KEY record names the path. */
  predicate Requires(r: Record, path: seq<string>) {
    (r.kind.NotNull? || r.kind.PrimaryKey?) && path in r.columns
  }

  predicate RequiredBy(records: seq<Record>, path: seq<string>) {
    exists i :: 0 <= i < |records| && Requires(records[i], path)
  }

  /** The set of keys holds exactly the required paths. */
  ghost predicate KeysOf(records: seq<Record>, required: set<string>) {
    && (forall path :: RequiredBy(records, path) ==> PathKey(path) in required)
    && (forall key :: key in required ==> exists path :: RequiredBy(records, path) && PathKey(path) == key)
  }

  /** Because keys are injective, membership of a key is membership of its
      path. */
  lemma KeyedExactly(records: seq<Record>, required: set<string>, path: seq<string>)
    requires KeysOf(records, required)
    ensures PathKey(path) in required <==> RequiredBy(records, path)
  {
    if PathKey(path) in required {
      var named :| RequiredBy(records, named) && PathKey(named) == PathKey(path);
      PathKeyIsInjective(named, path);
    }
  }

  // ---- The served schema follows the records ---------------------------------------

  predicate AtMostOneRowId(fields: seq<Field>) {
    forall i, j :: 0 <= i < |fields| && 0 <= j < |fields| && fields[i].rowId && fields[j].rowId ==> i == j
  }

  predicate NamesRowId(fields: seq<Field>, name: string) {
    exists i :: 0 <= i < |fields| && fields[i].rowId && fields[i].name == name
  }

  lemma OneRowIdIsAvoided(fields: seq<Field>, name: string)
    requires AtMostOneRowId(fields) && AvoidsRowId(fields, name)
    ensures !NamesRowId(fields, name)
  {
  }

  lemma RequiredResolves(t: Target, records: seq<Record>, path: seq<string>)
    requires Accepted(t, records) && t.columns.Some? && RequiredBy(records, path)
    ensures path != [] && Resolves(t.columns.value, path) && AvoidsRowId(t.columns.value, path[0])
  {
    var i :| 0 <= i < |records| && Requires(records[i], path);
    var r := records[i];
    assert RecordOk(t, r);
    var k :| 0 <= k < |r.columns| && r.columns[k] == path;
    if r.kind.PrimaryKey? {
      assert KeyColumnOk(t, r.columns[k]);
    }
  }

  /** Served nullability is exact, field by field: outside the row-id column, a
      reachable field is non-nullable if and only if a NOT_NULL or PRIMARY_KEY
      record names its path. */
  lemma NullabilityExact(fields: seq<Field>, records: seq<Record>, required: set<string>, pos: Position)
    requires KeysOf(records, required) && ServedNullability(fields, required).Some?
    requires At(fields, pos).Some? && !fields[pos[0]].rowId
    ensures var out := ServedNullability(fields, required).value;
            && At(out, pos).Some?
            && (!At(out, pos).value.nullable <==> RequiredBy(records, NamesAt(fields, pos)))
  {
    ServedExact(fields, required, pos);
    KeyedExactly(records, required, NamesAt(fields, pos));
  }

  /** Every path an accepted record requires reaches exactly one field, and that field is served
      non-nullable exactly when the path does not start at a row-id column or the field was declared
      non-nullable already. */
  lemma RequiredReachesOne(t: Target, fields: seq<Field>, records: seq<Record>, required: set<string>,
                           path: seq<string>)
    returns (pos: Position)
    requires t.columns == Some(fields)
    requires Accepted(t, records) && KeysOf(records, required) && ServedNullability(fields, required).Some?
    requires RequiredBy(records, path)
    ensures Reaches(fields, pos, path) && path != []
    ensures forall other :: Reaches(fields, other, path) ==> other == pos
    ensures fields[pos[0]].rowId <==> NamesRowId(fields, path[0])
    ensures var out := ServedNullability(fields, required).value;
            && At(out, pos).Some?
            && (!At(out, pos).value.nullable <==> !NamesRowId(fields, path[0]) || !At(fields, pos).value.nullable)
  {
    RequiredResolves(t, records, path);
    pos := ResolvedReachesOne(fields, path);
    assert NamesAt(fields, pos)[0] == fields[pos[0]].name;
    var i :| 0 <= i < |fields| && Only(fields, i, path[0]);
    ServedExact(fields, required, pos);
    KeyedExactly(records, required, path);
    var out := ServedNullability(fields, required).value;
    if fields[pos[0]].rowId { SameBelow(out, fields, pos); }
  }

  /** With at most one row-id column every required path is served
      non-nullable. */
  lemma RequiredIsServed(t: Target, fields: seq<Field>, records: seq<Record>, required: set<string>, path: seq<string>)
    returns (pos: Position)
    requires t.columns == Some(fields) && AtMostOneRowId(fields)
    requires Accepted(t, records) && KeysOf(records, required) && ServedNullability(fields, required).Some?
    requires RequiredBy(records, path)
    ensures Reaches(fields, pos, path) && forall other :: Reaches(fields, other, path) ==> other == pos
    ensures var out := ServedNullability(fields, required).value;
            At(out, pos).Some? && !At(out, pos).value.nullable
  {
    pos := RequiredReachesOne(t, fields, records, required, path);
    RequiredResolves(t, records, path);
    OneRowIdIsAvoided(fields, path[0]);
  }

  /** With two row-id columns this fails: only the last is protected, so a
      record may require the first, which is then served as it was. */
  lemma TwoRowIdsEscape(t: Target, r: Record)
    requires t.columns == Some([
                 Field("a", true, true, false, false, Leaf("int64")),
                 Field("b", true, true, false, false, Leaf("int64"))])
    requires r.kind.NotNull? && r.columns == [["a"]] && IdentityOk(t, r) && r.checkSql == ""
    requires !r.hasForeignKey && !r.hasTarget
    requires r.size <= MAX_BYTES
    ensures Accepted(t, [r])
    ensures KeysOf([r], {PathKey(["a"])})
    ensures ServedNullability(t.columns.value, {PathKey(["a"])}) == Some(t.columns.value)
    ensures RequiredBy([r], ["a"]) && t.columns.value[0].nullable
  {
    var fields := t.columns.value;
    assert Only(fields, 0, "a");
    ResolvesThrough(fields, 0, ["a"]);
    assert RowIdIndex(fields) == 1;
    assert NotNullOk(t, r);
    assert PathOk(["a"]);
    assert TotalSize([r]) == TotalSize([]) + r.size;
    assert Requires([r][0], ["a"]);
    assert ServedNullability(fields, {PathKey(["a"])}).value == fields;
  }

  // ---- checkTableConstraints ------------------------------------------------------

  lemma SeenIsRepeat(paths: seq<seq<string>>, i: nat, seen: set<string>)
    requires i < |paths| && seen == (set j | 0 <= j < i :: PathKey(paths[j]))
    ensures PathKey(paths[i]) in seen <==> exists j :: 0 <= j < i && paths[j] == paths[i]
  {
    if PathKey(paths[i]) in seen {
      var j :| 0 <= j < i && PathKey(paths[j]) == PathKey(paths[i]);
      PathKeyIsInjective(paths[j], paths[i]);
    }
  }

  /** vgi/constraint_records.go, `checkColumnPaths` with nested paths allowed. */
  method CheckColumnPaths(paths: seq<seq<string>>) returns (ok: bool)
    ensures ok <==> ColumnPathsOk(paths)
  {
    if |paths| > 1024 {
      return false;
    }
    var seen: set<string> := {};
    for i := 0 to |paths|
      invariant forall j :: 0 <= j < i ==> PathOk(paths[j])
      invariant forall j, k :: 0 <= j < k < i ==> paths[j] != paths[k]
      invariant seen == (set j | 0 <= j < i :: PathKey(paths[j]))
    {
      if !PathOk(paths[i]) {
        return false;
      }
      var key := BuildPathKey(paths[i]);
      SeenIsRepeat(paths, i, seen);
      if key in seen {
        return false;
      }
      seen := seen + {key};
    }
    return true;
  }

  method CheckKeyColumns(t: Target, r: Record) returns (ok: bool)
    requires ColumnPathsOk(r.columns)
    ensures ok <==> KeyColumnsOk(t, r)
  {
    for i := 0 to |r.columns|
      invariant forall j :: 0 <= j < i ==> KeyColumnOk(t, r.columns[j])
    {
      var path := r.columns[i];
      if |path| != 1 {
        return false;
      }
      if t.columns.Some? {
        var found := ResolveNotNullPath(t.columns.value, RowIdIndex(t.columns.value), path);
        if !found {
          assert !KeyColumnOk(t, r.columns[i]);
          return false;
        }
      }
    }
    return true;
  }

  method CheckNotNull(t: Target, r: Record) returns (ok: bool)
    requires ColumnPathsOk(r.columns)
    ensures ok <==> NotNullOk(t, r)
  {
    if |r.columns| != 1 {
      return false;
    }
    assert PathOk(r.columns[0]);
    ok := true;
    if t.columns.Some? {
      ok := ResolveNotNullPath(t.columns.value, RowIdIndex(t.columns.value), r.columns[0]);
    }
  }

  /** The checks on one record alone. */
  method CheckRecord(t: Target, r: Record) returns (ok: bool)
    ensures ok <==> RecordOk(t, r)
  {
    if !IdentityOk(t, r) {
      return false;
    }
    var paths := CheckColumnPaths(r.columns);
    if !paths || r.kind.Check? != (r.checkSql != "") || r.kind.Check? == (|r.columns| > 0) {
      return false;
    }
    if r.kind.ForeignKey? != r.hasForeignKey || r.kind.ForeignKey? != r.hasTarget {
      return false;
    }
    match r.kind {
      case Check => ok := CheckOk(t, r);
      case NotNull => ok := CheckNotNull(t, r);
      case PrimaryKey => ok := CheckKeyColumns(t, r);
      case Unique => ok := CheckKeyColumns(t, r);
      case ForeignKey =>
        ok := CheckKeyColumns(t, r);
        ok := ok && ForeignKeyOk(r);
      case Unknown => ok := false;
    }
  }

  /** What the loop remembers of the records it has passed. */
  datatype Seen = Seen(ids: set<string>, labels: set<string>, primaryKey: string, total: nat)

  function Ids(records: seq<Record>): set<string> {
    set i | 0 <= i < |records| :: records[i].id
  }

  function Labels(t: Target, records: seq<Record>): set<string> {
    set i | 0 <= i < |records| && records[i].declaredName != "" :: t.lower(records[i].declaredName)
  }

  predicate Remembers(t: Target, records: seq<Record>, seen: Seen) {
    && seen.total == TotalSize(records)
    && seen.ids == Ids(records)
    && seen.labels == Labels(t, records)
    && (seen.primaryKey != "" <==> exists i :: 0 <= i < |records| && records[i].kind.PrimaryKey?)
  }

  predicate Fits(t: Target, seen: Seen, r: Record) {
    && r.id !in seen.ids
    && (r.declaredName != "" ==> t.lower(r.declaredName) !in seen.labels)
    && !(r.kind.PrimaryKey? && seen.primaryKey != "")
  }

  function Remember(t: Target, seen: Seen, r: Record): Seen {
    Seen(seen.ids + {r.id},
         seen.labels + if r.declaredName != "" then {t.lower(r.declaredName)} else {},
         if r.kind.PrimaryKey? then r.id else seen.primaryKey,
         seen.total + r.size)
  }

  predicate CompatibleWithAll(t: Target, records: seq<Record>, r: Record) {
    forall i :: 0 <= i < |records| ==> Compatible(t, records[i], r)
  }

  lemma FitsExactly(t: Target, records: seq<Record>, seen: Seen, r: Record)
    requires Remembers(t, records, seen)
    ensures Fits(t, seen, r) <==> CompatibleWithAll(t, records, r)
  {
    if CompatibleWithAll(t, records, r) {
      forall i | 0 <= i < |records|
        ensures records[i].id != r.id
        ensures r.declaredName != "" && records[i].declaredName != "" ==>
          t.lower(records[i].declaredName) != t.lower(r.declaredName)
        ensures r.kind.PrimaryKey? ==> !records[i].kind.PrimaryKey?
      {
        assert Compatible(t, records[i], r);
      }
    }
  }

  lemma OneMoreName(t: Target, records: seq<Record>, r: Record)
    ensures Ids(records + [r]) == Ids(records) + {r.id}
    ensures Labels(t, records + [r]) == Labels(t, records) + if r.declaredName != "" then {t.lower(r.declaredName)}
      else {}
  {
    var all := records + [r];
    assert forall i :: 0 <= i < |records| ==> all[i] == records[i];
    assert all[|records|] == r;
  }

  lemma RemembersOneMore(t: Target, records: seq<Record>, seen: Seen, r: Record)
    requires Remembers(t, records, seen) && r.id != ""
    ensures Remembers(t, records + [r], Remember(t, seen, r))
  {
    var all := records + [r];
    OneMoreName(t, records, r);
    assert all[..|records|] == records && all[|records|] == r;
    if seen.primaryKey != "" {
      var i :| 0 <= i < |records| && records[i].kind.PrimaryKey?;
      assert all[i].kind.PrimaryKey?;
    }
  }

  function KeysRequired(r: Record): set<string> {
    if r.kind.NotNull? || r.kind.PrimaryKey? then set path | path in r.columns :: PathKey(path) else {}
  }

  lemma KeysOneMore(records: seq<Record>, required: set<string>, r: Record)
    requires KeysOf(records, required)
    ensures KeysOf(records + [r], required + KeysRequired(r))
  {
    var all := records + [r];
    forall path
      ensures RequiredBy(all, path) <==> RequiredBy(records, path) || Requires(r, path)
    {
      if RequiredBy(records, path) {
        var i :| 0 <= i < |records| && Requires(records[i], path);
        assert Requires(all[i], path);
      }
      assert all[|records|] == r;
    }
    forall key | key in KeysRequired(r)
      ensures exists path :: RequiredBy(all, path) && PathKey(path) == key
    {
      var path :| path in r.columns && PathKey(path) == key;
      assert Requires(r, path);
    }
  }

  lemma {:induction false} TotalGrows(records: seq<Record>, i: nat)
    requires i <= |records|
    ensures TotalSize(records[..i]) <= TotalSize(records)
  {
    if i < |records| {
      assert records[..|records| - 1][..i] == records[..i];
      TotalGrows(records[..|records| - 1], i);
    } else {
      assert records[..i] == records;
    }
  }

  lemma AcceptedSoFar(t: Target, records: seq<Record>, i: nat)
    requires i < |records| && Accepted(t, records)
    ensures TotalSize(records[..i + 1]) <= MAX_BYTES && RecordOk(t, records[i])
    ensures CompatibleWithAll(t, records[..i], records[i])
  {
    TotalGrows(records, i + 1);
    forall j | 0 <= j < i
      ensures Compatible(t, records[..i][j], records[i])
    {
      assert records[..i][j] == records[j];
    }
  }

  /** vgi/constraint_records.go, `checkTableConstraints`: accepts exactly the
      accepted record sets, and returns the keys of exactly the paths they
      require. */
  method CheckTableConstraints(t: Target, records: seq<Record>) returns (r: Option<set<string>>)
    ensures r.Some? <==> Accepted(t, records)
    ensures r.Some? ==> KeysOf(records, r.value)
  {
    if |records| > MAX_RECORDS {
      return None;
    }
    var required: set<string> := {};
    var seen := Seen({}, {}, "", 0);
    for i := 0 to |records|
      invariant Remembers(t, records[..i], seen) && KeysOf(records[..i], required)
      invariant Accepted(t, records[..i])
    {
      ghost var before := records[..i];
      assert records[..i + 1] == before + [records[i]];
      if Accepted(t, records) {
        AcceptedSoFar(t, records, i);
      }
      FitsExactly(t, before, seen, records[i]);
      var ok := CheckRecord(t, records[i]);
      assert TotalSize(records[..i + 1]) == seen.total + records[i].size;
      if seen.total + records[i].size > MAX_BYTES || !ok || !Fits(t, seen, records[i]) {
        return None;
      }
      RemembersOneMore(t, before, seen, records[i]);
      KeysOneMore(before, required, records[i]);
      seen := Remember(t, seen, records[i]);
      required := required + KeysRequired(records[i]);
      AcceptedOneMore(t, before, records[i]);
    }
    assert records[..|records|] == records;
    return Some(required);
  }

  lemma AcceptedOneMore(t: Target, records: seq<Record>, r: Record)
    requires Accepted(t, records) && RecordOk(t, r) && CompatibleWithAll(t, records, r)
    requires |records| < MAX_RECORDS && TotalSize(records + [r]) <= MAX_BYTES
    ensures Accepted(t, records + [r])
  {
    var all := records + [r];
    forall i, j | 0 <= i < j < |all|
      ensures Compatible(t, all[i], all[j])
    {
      if j == |records| {
        assert Compatible(t, records[i], r);
      } else {
        assert Compatible(t, records[i], records[j]);
      }
    }
  }

  /** A record requires a generated column, which must stay nullable. */
  predicate GeneratedRequired(records: seq<Record>, f: Field) {
    !f.rowId && f.generated && RequiredBy(records, [f.name])
  }

  /** vgi/constraint_records.go, `ServedTableColumns`: refused exactly when the
      records are, or when one requires a generated column. */
  method ServedTableColumns(t: Target, fields: seq<Field>, records: seq<Record>) returns (out: Option<seq<Field>>)
    requires t.columns == Some(fields) && t.checkSchema
    ensures out.Some? ==>
              && Accepted(t, records) && |out.value| == |fields|
              && forall pos :: At(fields, pos).Some? && !fields[pos[0]].rowId ==>
                   && At(out.value, pos).Some?
                   && (!At(out.value, pos).value.nullable <==> RequiredBy(records, NamesAt(fields, pos)))
    ensures out.None? <==>
              || (|t.schemaPath| != 1 && records != [])
              || !Accepted(t, records)
              || exists i :: 0 <= i < |fields| && GeneratedRequired(records, fields[i])
  {
    if |t.schemaPath| != 1 && |records| > 0 {
      return None;
    }
    var required := CheckTableConstraints(t, records);
    if required.None? {
      return None;
    }
    out := ServedNullability(fields, required.value);
    forall i | 0 <= i < |fields|
      ensures PathKey([fields[i].name]) in required.value <==> RequiredBy(records, [fields[i].name])
    {
      KeyedExactly(records, required.value, [fields[i].name]);
    }
    if out.Some? {
      forall pos | At(fields, pos).Some? && !fields[pos[0]].rowId
        ensures At(out.value, pos).Some?
        ensures !At(out.value, pos).value.nullable <==> RequiredBy(records, NamesAt(fields, pos))
      {
        NullabilityExact(fields, records, required.value, pos);
      }
    }
  }
}
