/** Which constraint records are accepted, kind by kind with every literal and limit written out, and that
    a column that can be required is served as required (vgi/constraint_records.go). */
module ConstraintCases {
  import opened Wrappers
  import opened Nullability
  import opened ConstraintRecords

  // ---- Paths -----------------------------------------------------------------------

  /** At no level along the position does another field have the same name. */
  predicate Unambiguous(fields: seq<Field>, pos: Position)
    decreases |pos|
  {
    pos != [] && pos[0] < |fields| &&
    (forall j :: 0 <= j < |fields| && fields[j].name == fields[pos[0]].name ==> j == pos[0]) &&
    (|pos| > 1 ==> Unambiguous(ChildrenOf(fields[pos[0]]), pos[1..]))
  }

  ghost predicate LeadsTo(fields: seq<Field>, path: seq<string>, pos: Position) {
    Reaches(fields, pos, path) && Unambiguous(fields, pos)
  }

  lemma {:induction false} ResolvedLeads(fields: seq<Field>, path: seq<string>) returns (pos: Position)
    requires Resolves(fields, path)
    ensures LeadsTo(fields, path, pos)
    decreases |path|
  {
    var i :| 0 <= i < |fields| && Only(fields, i, path[0]) &&
      (|path| > 1 ==> Resolves(ChildrenOf(fields[i]), path[1..]));
    if |path| == 1 {
      pos := [i];
      assert pos[1..] == [] && path == [path[0]];
      assert NamesAt(fields, pos) == [fields[i].name] + NamesAt(ChildrenOf(fields[i]), []);
    } else {
      var rest := ResolvedLeads(ChildrenOf(fields[i]), path[1..]);
      pos := [i] + rest;
      assert pos[1..] == rest && path == [path[0]] + path[1..];
    }
  }

  lemma {:induction false} LeadingResolves(fields: seq<Field>, path: seq<string>, pos: Position)
    requires LeadsTo(fields, path, pos)
    ensures Resolves(fields, path)
    decreases |path|
  {
    NamesHaveLength(fields, pos);
    assert Only(fields, pos[0], path[0]);
    if |path| > 1 {
      assert NamesAt(fields, pos)[1..] == NamesAt(ChildrenOf(fields[pos[0]]), pos[1..]);
      LeadingResolves(ChildrenOf(fields[pos[0]]), path[1..], pos[1..]);
    }
  }

  /** A path resolves exactly when it leads, through ordinary structs, to a field none of whose names on
      the way is shared with a sibling. */
  lemma ResolvesExactly(fields: seq<Field>, path: seq<string>)
    ensures Resolves(fields, path) <==> exists pos :: LeadsTo(fields, path, pos)
  {
    if Resolves(fields, path) { var pos := ResolvedLeads(fields, path); }
    if pos :| LeadsTo(fields, path, pos) { LeadingResolves(fields, path, pos); }
  }

  /** The fields of a struct are reached unless it is an extension type, and only a struct has any. */
  lemma ChildrenAreReachedExactly(fields: seq<Field>, i: nat, j: nat)
    requires i < |fields|
    ensures At(fields, [i, j]).Some? <==>
            fields[i].shape.Struct? && !fields[i].extension && j < |fields[i].shape.children|
    ensures At(fields, [i, j]).Some? ==> At(fields, [i, j]).value == fields[i].shape.children[j]
  {
    assert [i, j][1..] == [j];
  }

  /** An extension type is served with its fields as they are. */
  lemma ExtensionsAreKept(required: set<string>, prefix: seq<string>, f: Field)
    requires f.extension
    ensures Serve(required, prefix, f).shape == f.shape
  {
  }

  /** Not the name of the last row-id column. */
  predicate NotRowId(fields: seq<Field>, name: string) {
    forall i :: 0 <= i < |fields| && fields[i].rowId && (forall j :: i < j < |fields| ==> !fields[j].rowId) ==>
      fields[i].name != name
  }

  lemma NotRowIdExactly(fields: seq<Field>, name: string)
    ensures AvoidsRowId(fields, name) <==> NotRowId(fields, name)
  {
    var r := RowIdIndex(fields);
    if NotRowId(fields, name) && r >= 0 { assert fields[r].rowId; }
    if AvoidsRowId(fields, name) {
      forall i | 0 <= i < |fields| && fields[i].rowId && (forall j :: i < j < |fields| ==> !fields[j].rowId)
        ensures fields[i].name != name
      {
        assert !(r < i) && !(i < r);
      }
    }
  }

  /** The table's columns, if known, have one field at the path, not of the row-id column. */
  ghost predicate Finds(t: Target, path: seq<string>) {
    t.columns.Some? ==>
      path != [] && NotRowId(t.columns.value, path[0]) && exists pos :: LeadsTo(t.columns.value, path, pos)
  }

  lemma FindsExactly(t: Target, path: seq<string>)
    requires path != []
    ensures Finds(t, path) <==>
            (t.columns.Some? ==> Resolves(t.columns.value, path) && AvoidsRowId(t.columns.value, path[0]))
  {
    if t.columns.Some? {
      ResolvesExactly(t.columns.value, path);
      NotRowIdExactly(t.columns.value, path[0]);
    }
  }

  // ---- Records -----------------------------------------------------------------------

  predicate Name(s: string) {
    1 <= |s| <= 4096 && '\0' !in s
  }

  predicate NamePath(path: seq<string>) {
    1 <= |path| <= 64 && forall i :: 0 <= i < |path| ==> Name(path[i])
  }

  /** The record is of this table, enforced for all rows, and its names are names. */
  predicate OfTable(t: Target, r: Record) {
    && r.size > 0 && Name(r.id) && |r.schemaPath| == 1 && Name(r.schemaPath[0]) && r.table == t.table
    && (t.checkSchema ==> r.schemaPath == t.schemaPath)
    && r.enforced && r.allRows && (r.declaredName == "" || Name(r.declaredName))
  }

  predicate NoCheck(r: Record) {
    r.checkSql == ""
  }

  predicate NoForeignKey(r: Record) {
    !r.hasForeignKey && !r.hasTarget
  }

  /** A NOT_NULL record: one path, at any depth. */
  lemma NotNullExactly(t: Target, r: Record)
    requires r.kind.NotNull?
    ensures RecordOk(t, r) <==>
            && OfTable(t, r) && NoCheck(r) && NoForeignKey(r)
            && |r.columns| == 1 && NamePath(r.columns[0]) && Finds(t, r.columns[0])
  {
    if |r.columns| == 1 && r.columns[0] != [] { FindsExactly(t, r.columns[0]); }
    if |r.columns| == 1 { OnePath(r.columns[0], r.columns); }
  }

  lemma OnePath(path: seq<string>, paths: seq<seq<string>>)
    requires paths == [path]
    ensures ColumnPathsOk(paths) <==> NamePath(path)
  {
    assert paths[0] == path;
    assert PathOk(path) <==> NamePath(path);
  }

  /** Between 1 and 1024 distinct top-level columns. */
  ghost predicate KeyColumns(t: Target, columns: seq<seq<string>>) {
    && 1 <= |columns| <= 1024
    && (forall i, j :: 0 <= i < j < |columns| ==> columns[i] != columns[j])
    && (forall i :: 0 <= i < |columns| ==> KeyColumn(t, columns[i]))
  }

  ghost predicate KeyColumn(t: Target, path: seq<string>) {
    |path| == 1 && Name(path[0]) && Finds(t, path)
  }

  lemma KeyColumnExactly(t: Target, path: seq<string>)
    ensures PathOk(path) && KeyColumnOk(t, path) <==> KeyColumn(t, path)
  {
    if |path| == 1 { FindsExactly(t, path); }
  }

  lemma KeyColumnsExactly(t: Target, r: Record)
    ensures r.columns != [] && ColumnPathsOk(r.columns) && KeyColumnsOk(t, r) <==> KeyColumns(t, r.columns)
  {
    forall i | 0 <= i < |r.columns|
      ensures PathOk(r.columns[i]) && KeyColumnOk(t, r.columns[i]) <==> KeyColumn(t, r.columns[i])
    {
      KeyColumnExactly(t, r.columns[i]);
    }
    if KeyColumns(t, r.columns) {
      forall i | 0 <= i < |r.columns| ensures PathOk(r.columns[i]) && KeyColumnOk(t, r.columns[i]) {
        assert KeyColumn(t, r.columns[i]);
      }
    }
  }

  /** A PRIMARY KEY or UNIQUE record. */
  lemma KeyExactly(t: Target, r: Record)
    requires r.kind.PrimaryKey? || r.kind.Unique?
    ensures RecordOk(t, r) <==> OfTable(t, r) && NoCheck(r) && NoForeignKey(r) && KeyColumns(t, r.columns)
  {
    KeyColumnsExactly(t, r);
  }

  /** A FOREIGN KEY record: a key of a table of the same schema, column for column, MATCH SIMPLE and
      without referential actions. */
  ghost predicate References(r: Record) {
    && r.hasForeignKey && r.hasTarget
    && r.refSchemaPath == r.schemaPath && r.targetSchemaPath == r.schemaPath && r.targetOwner == r.refTable
    && |r.refColumns| == |r.columns| && (forall i :: 0 <= i < |r.refColumns| ==> |r.refColumns[i]| == 1)
    && r.fkMatch == "SIMPLE"
    && (r.fkOnUpdate == "NO_ACTION" || r.fkOnUpdate == "RESTRICT")
    && (r.fkOnDelete == "NO_ACTION" || r.fkOnDelete == "RESTRICT")
  }

  lemma ForeignKeyExactly(t: Target, r: Record)
    requires r.kind.ForeignKey?
    ensures RecordOk(t, r) <==> OfTable(t, r) && NoCheck(r) && KeyColumns(t, r.columns) && References(r)
  {
    KeyColumnsExactly(t, r);
  }

  /** A CHECK record: an expression of the scalar profile in the schema and the default context, and no
      columns of its own. */
  lemma CheckExactly(t: Target, r: Record)
    requires r.kind.Check?
    ensures RecordOk(t, r) <==>
            && OfTable(t, r) && NoForeignKey(r) && r.columns == [] && r.checkSql != "" && t.checkSqlOk(r.checkSql)
            && r.checkProfile == "vgi.expression.duckdb.scalar.v1" && r.checkSchemaPath == r.schemaPath
            && r.checkDefaultContext
  {
  }

  lemma UnknownIsRefused(t: Target, r: Record)
    requires r.kind.Unknown?
    ensures !RecordOk(t, r)
  {
  }

  // ---- Sets of records -----------------------------------------------------------------

  predicate DistinctNames(t: Target, records: seq<Record>) {
    && (forall i, j :: 0 <= i < j < |records| ==> records[i].id != records[j].id)
    && (forall i, j :: 0 <= i < j < |records| && records[i].declaredName != "" && records[j].declaredName != "" ==>
          t.lower(records[i].declaredName) != t.lower(records[j].declaredName))
  }

  predicate OnePrimaryKey(records: seq<Record>) {
    forall i, j :: 0 <= i < j < |records| ==> !(records[i].kind.PrimaryKey? && records[j].kind.PrimaryKey?)
  }

  /** A set is accepted exactly when it has at most 1024 records of at most 8 MiB together, each accepted,
      with distinct IDs, declared names distinct up to case, and at most one primary key. */
  lemma AcceptedExactly(t: Target, records: seq<Record>)
    ensures Accepted(t, records) <==>
            && |records| <= 1024 && TotalSize(records) <= 8388608
            && (forall i :: 0 <= i < |records| ==> RecordOk(t, records[i]))
            && DistinctNames(t, records) && OnePrimaryKey(records)
  {
    forall i, j | 0 <= i < j < |records|
      ensures Compatible(t, records[i], records[j]) <==>
              && records[i].id != records[j].id
              && (records[i].declaredName != "" && records[j].declaredName != "" ==>
                    t.lower(records[i].declaredName) != t.lower(records[j].declaredName))
              && !(records[i].kind.PrimaryKey? && records[j].kind.PrimaryKey?)
    {
    }
    if Accepted(t, records) {
      forall i, j | 0 <= i < j < |records| ensures Compatible(t, records[i], records[j]) {}
    }
  }

  /** Declaring a column NOT NULL works: a record of any reachable, unambiguous field outside row-id
      columns is accepted on its own, and the field is served non-nullable. */
  lemma DeclaredIsServed(t: Target, r: Record, fields: seq<Field>, pos: Position)
    requires t.columns == Some(fields) && At(fields, pos).Some? && Unambiguous(fields, pos)
    requires NotRowId(fields, NamesAt(fields, pos)[0]) && !fields[pos[0]].rowId && NamePath(NamesAt(fields, pos))
    requires r.kind.NotNull? && r.columns == [NamesAt(fields, pos)] && OfTable(t, r) && NoCheck(r) && NoForeignKey(r)
    requires r.size <= 8388608
    ensures Accepted(t, [r])
    ensures forall required :: KeysOf([r], required) && ServedNullability(fields, required).Some? ==>
              var out := ServedNullability(fields, required).value;
              At(out, pos).Some? && !At(out, pos).value.nullable
  {
    var path := NamesAt(fields, pos);
    assert LeadsTo(fields, path, pos);
    NotNullExactly(t, r);
    assert [r][..0] == [];
    assert TotalSize([r]) == TotalSize([]) + r.size;
    AcceptedExactly(t, [r]);
    assert Requires([r][0], path);
    forall required | KeysOf([r], required) && ServedNullability(fields, required).Some?
      ensures var out := ServedNullability(fields, required).value;
              At(out, pos).Some? && !At(out, pos).value.nullable
    {
      NullabilityExact(fields, [r], required, pos);
    }
  }
}
