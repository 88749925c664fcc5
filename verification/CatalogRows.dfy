/** What decoding the six streams gives, stream by stream (vgi/catalog_collection.go,
    `decodeCatalogStreams`): which rows are accepted, and from which stream and subtype each of the
    eight lists of a schema is filled. */
module CatalogRows {
  import opened CatalogStreams
  import opened CatalogCodec

  /** The rows that are wanted, in order. */
  function Where(rows: seq<Row>, wanted: Row -> bool): seq<Row> {
    if rows == [] then []
    else
      var last := rows[|rows| - 1];
      Where(rows[..|rows| - 1], wanted) + (if wanted(last) then [last] else [])
  }

  lemma {:induction false} WhereSame(rows: seq<Row>, p: Row -> bool, q: Row -> bool)
    requires forall i :: 0 <= i < |rows| ==> p(rows[i]) == q(rows[i])
    ensures Where(rows, p) == Where(rows, q)
  {
    if rows != [] { WhereSame(rows[..|rows| - 1], p, q); }
  }

  /** The rows of a schema. */
  function OfSchema(c: Casing, key: Path): Row -> bool {
    (row: Row) => KeyOf(c, row.path) == key
  }

  /** The rows of a schema with one of these subtypes, in upper case. */
  function OfSubtype(c: Casing, key: Path, subtypes: set<string>): Row -> bool {
    (row: Row) => KeyOf(c, row.path) == key && c.upper(row.subtype) in subtypes
  }

  function Belonging(c: Casing, kind: nat, key: Path, slot: nat): Row -> bool {
    (row: Row) => Belongs(c, Tagged(kind, row), key, slot)
  }

  lemma {:induction false} SelectFromStream(c: Casing, kind: nat, rows: seq<Row>, key: Path, slot: nat)
    ensures Select(c, Tag(kind, rows), key, slot) == Where(rows, Belonging(c, kind, key, slot))
  {
    if rows != [] {
      var n := |rows| - 1;
      SelectFromStream(c, kind, rows[..n], key, slot);
      assert Tag(kind, rows)[..n] == Tag(kind, rows[..n]) && Tag(kind, rows)[n] == Tagged(kind, rows[n]);
    }
  }

  lemma {:induction false} OtherStreamsGiveNothing(c: Casing, kind: nat, rows: seq<Row>, key: Path, slot: nat)
    requires kind != KindOf(slot)
    ensures Where(rows, Belonging(c, kind, key, slot)) == []
  {
    if rows != [] { OtherStreamsGiveNothing(c, kind, rows[..|rows| - 1], key, slot); }
  }

  /** A list is filled from its own stream. */
  lemma {:induction false} ListFromStream(c: Casing, streams: seq<seq<Row>>, n: nat, key: Path, slot: nat)
    requires 1 <= n <= |streams| && slot < SLOTS
    ensures Select(c, Objects(streams, n), key, slot) ==
            if KindOf(slot) < n then Where(streams[KindOf(slot)], Belonging(c, KindOf(slot), key, slot)) else []
  {
    if n > 1 {
      ListFromStream(c, streams, n - 1, key, slot);
      SelectSplits(c, Objects(streams, n - 1), Tag(n - 1, streams[n - 1]), key, slot);
      SelectFromStream(c, n - 1, streams[n - 1], key, slot);
      if n - 1 != KindOf(slot) { OtherStreamsGiveNothing(c, n - 1, streams[n - 1], key, slot); }
    }
  }

  /** The eight lists of a schema, each by its stream and subtypes. */
  ghost predicate ListsByStream(c: Casing, streams: seq<seq<Row>>, key: Path, lists: seq<seq<Row>>)
    requires |streams| == KINDS
  {
    && |lists| == 8
    && lists[0] == Where(streams[1], OfSchema(c, key))
    && lists[1] == Where(streams[2], OfSchema(c, key))
    && lists[2] == Where(streams[3], OfSubtype(c, key, {"SCALAR"}))
    && lists[3] == Where(streams[3], OfSubtype(c, key, {"AGGREGATE"}))
    && lists[4] == Where(streams[3], OfSubtype(c, key, {"TABLE", "TABLE_BUFFERING"}))
    && lists[5] == Where(streams[4], OfSubtype(c, key, {"SCALAR"}))
    && lists[6] == Where(streams[4], OfSubtype(c, key, {"TABLE"}))
    && lists[7] == Where(streams[5], OfSchema(c, key))
  }

  lemma PlainList(c: Casing, streams: seq<seq<Row>>, key: Path, slot: nat)
    requires |streams| == KINDS && (slot == 0 || slot == 1 || slot == 7)
    ensures Select(c, Objects(streams, KINDS), key, slot) == Where(streams[KindOf(slot)], OfSchema(c, key))
  {
    ListFromStream(c, streams, KINDS, key, slot);
    WhereSame(streams[KindOf(slot)], Belonging(c, KindOf(slot), key, slot), OfSchema(c, key));
  }

  lemma FunctionList(c: Casing, streams: seq<seq<Row>>, key: Path, slot: nat, subtypes: set<string>)
    requires |streams| == KINDS
    requires || (slot == 2 && subtypes == {"SCALAR"}) || (slot == 3 && subtypes == {"AGGREGATE"})
             || (slot == 4 && subtypes == {"TABLE", "TABLE_BUFFERING"})
    ensures Select(c, Objects(streams, KINDS), key, slot) == Where(streams[3], OfSubtype(c, key, subtypes))
  {
    ListFromStream(c, streams, KINDS, key, slot);
    WhereSame(streams[3], Belonging(c, 3, key, slot), OfSubtype(c, key, subtypes));
  }

  lemma MacroList(c: Casing, streams: seq<seq<Row>>, key: Path, slot: nat, subtypes: set<string>)
    requires |streams| == KINDS
    requires (slot == 5 && subtypes == {"SCALAR"}) || (slot == 6 && subtypes == {"TABLE"})
    ensures Select(c, Objects(streams, KINDS), key, slot) == Where(streams[4], OfSubtype(c, key, subtypes))
  {
    ListFromStream(c, streams, KINDS, key, slot);
    WhereSame(streams[4], Belonging(c, 4, key, slot), OfSubtype(c, key, subtypes));
  }

  lemma GroupByStream(c: Casing, streams: seq<seq<Row>>, row: Row)
    requires |streams| == KINDS
    ensures ListsByStream(c, streams, KeyOf(c, row.path), Group(c, row, Objects(streams, KINDS)).lists)
  {
    var key := KeyOf(c, row.path);
    PlainList(c, streams, key, 0);
    PlainList(c, streams, key, 1);
    FunctionList(c, streams, key, 2, {"SCALAR"});
    FunctionList(c, streams, key, 3, {"AGGREGATE"});
    FunctionList(c, streams, key, 4, {"TABLE", "TABLE_BUFFERING"});
    MacroList(c, streams, key, 5, {"SCALAR"});
    MacroList(c, streams, key, 6, {"TABLE"});
    PlainList(c, streams, key, 7);
  }

  // ---- Which rows are accepted -----------------------------------------------------

  /** Every row names a schema of the first stream. */
  ghost predicate NameSchemas(c: Casing, schemas: seq<Row>, rows: seq<Row>) {
    forall i :: 0 <= i < |rows| ==> rows[i].path != [] && Known(c, schemas, KeyOf(c, rows[i].path))
  }

  ghost predicate HaveSubtypes(c: Casing, rows: seq<Row>, subtypes: set<string>) {
    forall i :: 0 <= i < |rows| ==> c.upper(rows[i].subtype) in subtypes
  }

  /** Objects name schemas, functions and macros one of their kinds. */
  ghost predicate RowsAccepted(c: Casing, streams: seq<seq<Row>>)
    requires |streams| == KINDS
  {
    && (forall kind :: 1 <= kind <= 5 ==> NameSchemas(c, streams[0], streams[kind]))
    && HaveSubtypes(c, streams[3], {"SCALAR", "AGGREGATE", "TABLE", "TABLE_BUFFERING"})
    && HaveSubtypes(c, streams[4], {"SCALAR", "TABLE"})
  }

  /** The schemas are not empty, no two are the same up to case, and each follows its parent. */
  ghost predicate SchemasAccepted(c: Casing, schemas: seq<Row>) {
    forall i :: 0 <= i < |schemas| ==>
      && schemas[i].path != []
      && (forall j :: 0 <= j < i ==> KeyOf(c, schemas[j].path) != KeyOf(c, schemas[i].path))
      && (|schemas[i].path| > 1 ==> FollowsParent(c, schemas, i))
  }

  ghost predicate FollowsParent(c: Casing, schemas: seq<Row>, i: nat)
    requires i < |schemas| && |schemas[i].path| > 0
  {
    exists j :: 0 <= j < i && KeyOf(c, schemas[j].path) == KeyOf(c, schemas[i].path[..|schemas[i].path| - 1])
  }

  ghost predicate StreamOk(c: Casing, schemas: seq<Row>, kind: nat, rows: seq<Row>) {
    forall i :: 0 <= i < |rows| ==> ObjectOk(c, schemas, Tagged(kind, rows[i]))
  }

  lemma {:induction false} ObjectsByStream(c: Casing, schemas: seq<Row>, streams: seq<seq<Row>>, n: nat)
    requires 1 <= n <= |streams|
    ensures ObjectsOk(c, schemas, Objects(streams, n)) <==>
            forall kind :: 1 <= kind < n ==> StreamOk(c, schemas, kind, streams[kind])
  {
    if n > 1 {
      ObjectsByStream(c, schemas, streams, n - 1);
      ObjectsOkSplits(c, schemas, Objects(streams, n - 1), Tag(n - 1, streams[n - 1]));
      TagOk(c, schemas, n - 1, streams[n - 1]);
    }
  }

  lemma TagOk(c: Casing, schemas: seq<Row>, kind: nat, rows: seq<Row>)
    ensures ObjectsOk(c, schemas, Tag(kind, rows)) <==> StreamOk(c, schemas, kind, rows)
  {
    var t := Tag(kind, rows);
    assert forall i :: 0 <= i < |rows| ==> t[i] == Tagged(kind, rows[i]);
    if ObjectsOk(c, schemas, t) {
      forall i | 0 <= i < |rows| ensures ObjectOk(c, schemas, Tagged(kind, rows[i])) {
        assert ObjectOk(c, schemas, t[i]);
      }
    }
  }

  lemma PlainStream(c: Casing, schemas: seq<Row>, kind: nat, rows: seq<Row>)
    requires kind == 1 || kind == 2 || kind == 5
    ensures StreamOk(c, schemas, kind, rows) <==> NameSchemas(c, schemas, rows)
  {
    forall i | 0 <= i < |rows|
      ensures ObjectOk(c, schemas, Tagged(kind, rows[i])) <==>
              rows[i].path != [] && Known(c, schemas, KeyOf(c, rows[i].path))
    {
    }
  }

  lemma FunctionStream(c: Casing, schemas: seq<Row>, rows: seq<Row>)
    ensures StreamOk(c, schemas, 3, rows) <==>
            NameSchemas(c, schemas, rows) && HaveSubtypes(c, rows, {"SCALAR", "AGGREGATE", "TABLE", "TABLE_BUFFERING"})
  {
    forall i | 0 <= i < |rows|
      ensures ObjectOk(c, schemas, Tagged(3, rows[i])) <==>
              && rows[i].path != [] && Known(c, schemas, KeyOf(c, rows[i].path))
              && c.upper(rows[i].subtype) in {"SCALAR", "AGGREGATE", "TABLE", "TABLE_BUFFERING"}
    {
    }
  }

  lemma MacroStream(c: Casing, schemas: seq<Row>, rows: seq<Row>)
    ensures StreamOk(c, schemas, 4, rows) <==>
            NameSchemas(c, schemas, rows) && HaveSubtypes(c, rows, {"SCALAR", "TABLE"})
  {
    forall i | 0 <= i < |rows|
      ensures ObjectOk(c, schemas, Tagged(4, rows[i])) <==>
              && rows[i].path != [] && Known(c, schemas, KeyOf(c, rows[i].path))
              && c.upper(rows[i].subtype) in {"SCALAR", "TABLE"}
    {
    }
  }

  lemma RowsAcceptedExactly(c: Casing, streams: seq<seq<Row>>)
    requires |streams| == KINDS
    ensures ObjectsOk(c, streams[0], Objects(streams, KINDS)) <==> RowsAccepted(c, streams)
  {
    ObjectsByStream(c, streams[0], streams, KINDS);
    PlainStream(c, streams[0], 1, streams[1]);
    PlainStream(c, streams[0], 2, streams[2]);
    FunctionStream(c, streams[0], streams[3]);
    MacroStream(c, streams[0], streams[4]);
    PlainStream(c, streams[0], 5, streams[5]);
    assert (forall kind :: 1 <= kind < KINDS ==> StreamOk(c, streams[0], kind, streams[kind])) <==>
           && StreamOk(c, streams[0], 1, streams[1]) && StreamOk(c, streams[0], 2, streams[2])
           && StreamOk(c, streams[0], 3, streams[3]) && StreamOk(c, streams[0], 4, streams[4])
           && StreamOk(c, streams[0], 5, streams[5]);
  }

  lemma SchemasAcceptedExactly(c: Casing, schemas: seq<Row>)
    ensures SchemasOk(c, schemas) <==> SchemasAccepted(c, schemas)
  {
    forall i | 0 <= i < |schemas|
      ensures SchemaOk(c, schemas[..i], schemas[i]) <==>
              && schemas[i].path != []
              && (forall j :: 0 <= j < i ==> KeyOf(c, schemas[j].path) != KeyOf(c, schemas[i].path))
              && (|schemas[i].path| > 1 ==> FollowsParent(c, schemas, i))
    {
      assert forall j :: 0 <= j < i ==> schemas[..i][j] == schemas[j];
    }
  }

  ghost predicate EntriesByStream(c: Casing, streams: seq<seq<Row>>, entries: seq<Entry>)
    requires |streams| == KINDS
  {
    && |entries| == |streams[0]|
    && forall i :: 0 <= i < |entries| ==>
         && entries[i].path == streams[0][i].path && entries[i].schema == streams[0][i]
         && ListsByStream(c, streams, KeyOf(c, streams[0][i].path), entries[i].lists)
  }

  /** Decoding succeeds exactly on accepted schemas and rows, and gives one entry per schema row whose
      lists are the rows that name the schema, by stream and subtype, in stream order. */
  lemma DecodedByStream(c: Casing, streams: seq<seq<Row>>)
    requires |streams| == KINDS
    ensures Decode(c, streams).Some? <==> SchemasAccepted(c, streams[0]) && RowsAccepted(c, streams)
    ensures Decode(c, streams).Some? ==> EntriesByStream(c, streams, Decode(c, streams).value)
  {
    DecodeExact(c, streams);
    RowsAcceptedExactly(c, streams);
    SchemasAcceptedExactly(c, streams[0]);
    if Decode(c, streams).Some? {
      forall i | 0 <= i < |streams[0]|
        ensures ListsByStream(c, streams, KeyOf(c, streams[0][i].path), Decode(c, streams).value[i].lists)
      {
        GroupByStream(c, streams, streams[0][i]);
      }
    }
  }
}
