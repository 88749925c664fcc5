/**
  Encoding a grouped snapshot into six row streams and decoding it again
  (vgi/catalog_collection.go): the two methods, and the snapshots for which
  decoding restores what was encoded.
 */
module CatalogCodec {
  import opened Wrappers
  import opened CatalogBatches
  import opened CatalogStreams

  // ---- Encoding, and the round trip ----------------------------------------

  /** The rows one entry contributes to category `kind`, in append order. */
  function EntryRows(e: Entry, kind: nat): seq<Row>
    requires |e.lists| == SLOTS
  {
    if kind == 0 then [e.schema]
    else if kind == 1 then e.lists[0]
    else if kind == 2 then e.lists[1]
    else if kind == 3 then e.lists[2] + e.lists[3] + e.lists[4]
    else if kind == 4 then e.lists[5] + e.lists[6]
    else if kind == 5 then e.lists[7]
    else []
  }

  function KindRows(entries: seq<Entry>, kind: nat): seq<Row>
    requires Shaped(entries)
  {
    if entries == [] then []
    else
      var n := |entries| - 1;
      KindRows(entries[..n], kind) + EntryRows(entries[n], kind)
  }

  function AllKinds(entries: seq<Entry>): (streams: seq<seq<Row>>)
    requires Shaped(entries)
    ensures |streams| == KINDS
  {
    seq(KINDS, kind requires 0 <= kind => KindRows(entries, kind))
  }

  /** A row sits in the schema and list it describes; case may differ. */
  predicate RowFits(c: Casing, e: Entry, slot: nat, row: Row) {
    KeyOf(c, row.path) == KeyOf(c, e.path) && SlotOf(c, KindOf(slot), row) == Some(slot)
  }

  predicate EntryFits(c: Casing, e: Entry) {
    && |e.lists| == SLOTS
    && e.path == e.schema.path
    && forall slot, i :: 0 <= slot < SLOTS && 0 <= i < |e.lists[slot]| ==> RowFits(c, e, slot, e.lists[slot][i])
  }

  function SchemaRows(entries: seq<Entry>): seq<Row> {
    seq(|entries|, i requires 0 <= i < |entries| => entries[i].schema)
  }

  /** A valid snapshot: unique paths up to case, parents first, and every row
      in the entry and list its own columns name. */
  predicate ValidSnapshot(c: Casing, entries: seq<Entry>) {
    && SchemasOk(c, SchemaRows(entries))
    && forall i :: 0 <= i < |entries| ==> EntryFits(c, entries[i])
  }

  lemma {:induction false} SelectSplits(c: Casing, a: seq<Tagged>, b: seq<Tagged>, key: Path, slot: nat)
    ensures Select(c, a + b, key, slot) == Select(c, a, key, slot) + Select(c, b, key, slot)
  {
    if b == [] {
      assert a + b == a;
    } else {
      SelectSplits(c, a, b[..|b| - 1], key, slot);
      assert (a + b)[..|a + b| - 1] == a + b[..|b| - 1];
    }
  }

  lemma TagSplits(kind: nat, a: seq<Row>, b: seq<Row>)
    ensures Tag(kind, a + b) == Tag(kind, a) + Tag(kind, b)
  {
  }

  /** All rows fit the list `slot` of the entry with key `home`. */
  predicate AllFit(c: Casing, home: Path, slot: nat, rows: seq<Row>) {
    forall i :: 0 <= i < |rows| ==> Belongs(c, Tagged(KindOf(slot), rows[i]), home, slot)
  }

  lemma {:induction false} SelectList(c: Casing, home: Path, rows: seq<Row>, slot: nat, key: Path, want: nat)
    requires AllFit(c, home, slot, rows)
    ensures Select(c, Tag(KindOf(slot), rows), key, want) == if key == home && want == slot then rows else []
  {
    if rows != [] {
      var n := |rows| - 1;
      SelectList(c, home, rows[..n], slot, key, want);
      var t := Tag(KindOf(slot), rows);
      assert t[..n] == Tag(KindOf(slot), rows[..n]) && t[n] == Tagged(KindOf(slot), rows[n]);
      assert Belongs(c, t[n], home, slot);
      assert rows == rows[..n] + [rows[n]];
    }
  }

  lemma EntryListFits(c: Casing, e: Entry, slot: nat)
    requires EntryFits(c, e) && slot < SLOTS
    ensures AllFit(c, KeyOf(c, e.path), slot, e.lists[slot])
  {
    forall i | 0 <= i < |e.lists[slot]|
      ensures Belongs(c, Tagged(KindOf(slot), e.lists[slot][i]), KeyOf(c, e.path), slot)
    {
      assert RowFits(c, e, slot, e.lists[slot][i]);
    }
  }

  lemma SelectThree(c: Casing, home: Path, x: seq<Row>, y: seq<Row>, z: seq<Row>, key: Path, want: nat)
    requires AllFit(c, home, 2, x) && AllFit(c, home, 3, y) && AllFit(c, home, 4, z)
    ensures Select(c, Tag(3, x + y + z), key, want) ==
            if key != home then [] else if want == 2 then x else if want == 3 then y else if want == 4 then z else []
  {
    TagSplits(3, x + y, z);
    TagSplits(3, x, y);
    SelectSplits(c, Tag(3, x) + Tag(3, y), Tag(3, z), key, want);
    SelectSplits(c, Tag(3, x), Tag(3, y), key, want);
    SelectList(c, home, x, 2, key, want);
    SelectList(c, home, y, 3, key, want);
    SelectList(c, home, z, 4, key, want);
  }

  lemma SelectTwo(c: Casing, home: Path, x: seq<Row>, y: seq<Row>, key: Path, want: nat)
    requires AllFit(c, home, 5, x) && AllFit(c, home, 6, y)
    ensures Select(c, Tag(4, x + y), key, want) ==
            if key != home then [] else if want == 5 then x else if want == 6 then y else []
  {
    TagSplits(4, x, y);
    SelectSplits(c, Tag(4, x), Tag(4, y), key, want);
    SelectList(c, home, x, 5, key, want);
    SelectList(c, home, y, 6, key, want);
  }

  /** From the rows of one entry, each list can be picked out again. */
  lemma SelectEntry(c: Casing, e: Entry, kind: nat, key: Path, want: nat)
    requires EntryFits(c, e) && 1 <= kind <= 5 && want < SLOTS
    ensures Select(c, Tag(kind, EntryRows(e, kind)), key, want) ==
            if key == KeyOf(c, e.path) && kind == KindOf(want) then e.lists[want] else []
  {
    var home := KeyOf(c, e.path);
    forall slot | 0 <= slot < SLOTS
      ensures AllFit(c, home, slot, e.lists[slot])
    {
      EntryListFits(c, e, slot);
    }
    if kind == 3 {
      SelectThree(c, home, e.lists[2], e.lists[3], e.lists[4], key, want);
    } else if kind == 4 {
      SelectTwo(c, home, e.lists[5], e.lists[6], key, want);
    } else {
      SelectList(c, home, EntryRows(e, kind), if kind == 5 then 7 else kind - 1, key, want);
    }
  }

  predicate DistinctKeys(c: Casing, entries: seq<Entry>) {
    forall i, j :: 0 <= i < j < |entries| ==> KeyOf(c, entries[i].path) != KeyOf(c, entries[j].path)
  }

  predicate AllEntriesFit(c: Casing, entries: seq<Entry>) {
    forall i :: 0 <= i < |entries| ==> EntryFits(c, entries[i])
  }

  lemma {:induction false} SelectKind(c: Casing, entries: seq<Entry>, n: nat, kind: nat, i: nat, want: nat)
    requires AllEntriesFit(c, entries) && DistinctKeys(c, entries)
    requires n <= |entries| && i < |entries| && 1 <= kind <= 5 && want < SLOTS
    requires Shaped(entries[..n])
    ensures Select(c, Tag(kind, KindRows(entries[..n], kind)), KeyOf(c, entries[i].path), want) ==
            if i < n && kind == KindOf(want) then entries[i].lists[want] else []
  {
    if n != 0 {
      var key := KeyOf(c, entries[i].path);
      SelectKind(c, entries, n - 1, kind, i, want);
      assert entries[..n][..n - 1] == entries[..n - 1];
      var a, b := KindRows(entries[..n - 1], kind), EntryRows(entries[n - 1], kind);
      assert KindRows(entries[..n], kind) == a + b;
      TagSplits(kind, a, b);
      SelectSplits(c, Tag(kind, a), Tag(kind, b), key, want);
      SelectEntry(c, entries[n - 1], kind, key, want);
      assert key == KeyOf(c, entries[n - 1].path) <==> i == n - 1;
    }
  }

  lemma {:induction false} SelectObjects(c: Casing, entries: seq<Entry>, n: nat, i: nat, want: nat)
    requires AllEntriesFit(c, entries) && DistinctKeys(c, entries) && Shaped(entries)
    requires n <= KINDS && i < |entries| && want < SLOTS
    ensures Select(c, Objects(AllKinds(entries), n), KeyOf(c, entries[i].path), want) ==
            if KindOf(want) < n then entries[i].lists[want] else []
  {
    if n > 1 {
      var key := KeyOf(c, entries[i].path);
      SelectObjects(c, entries, n - 1, i, want);
      assert entries[..|entries|] == entries;
      SelectKind(c, entries, |entries|, n - 1, i, want);
      SelectSplits(c, Objects(AllKinds(entries), n - 1), Tag(n - 1, KindRows(entries, n - 1)), key, want);
    }
  }

  /** Every row of a list names a known schema and has a known subtype; it need not be the schema
      or the list it is filed under. */
  predicate ListKnown(c: Casing, schemas: seq<Row>, slot: nat, rows: seq<Row>) {
    forall j :: 0 <= j < |rows| ==> ObjectOk(c, schemas, Tagged(KindOf(slot), rows[j]))
  }

  predicate KindKnown(c: Casing, schemas: seq<Row>, e: Entry, kind: nat)
    requires |e.lists| == SLOTS
  {
    forall slot :: 0 <= slot < SLOTS && KindOf(slot) == kind ==> ListKnown(c, schemas, slot, e.lists[slot])
  }

  predicate RowsKnown(c: Casing, schemas: seq<Row>, entries: seq<Entry>)
    requires Shaped(entries)
  {
    forall i, slot :: 0 <= i < |entries| && 0 <= slot < SLOTS ==> ListKnown(c, schemas, slot, entries[i].lists[slot])
  }

  lemma ListOkIff(c: Casing, schemas: seq<Row>, slot: nat, rows: seq<Row>)
    ensures ObjectsOk(c, schemas, Tag(KindOf(slot), rows)) <==> ListKnown(c, schemas, slot, rows)
  {
    var tagged := Tag(KindOf(slot), rows);
    assert forall j :: 0 <= j < |rows| ==> tagged[j] == Tagged(KindOf(slot), rows[j]);
  }

  lemma ObjectsOkSplits(c: Casing, schemas: seq<Row>, a: seq<Tagged>, b: seq<Tagged>)
    ensures ObjectsOk(c, schemas, a + b) <==> ObjectsOk(c, schemas, a) && ObjectsOk(c, schemas, b)
  {
    var all := a + b;
    assert forall i :: 0 <= i < |a| ==> all[i] == a[i];
    assert forall i :: 0 <= i < |b| ==> all[|a| + i] == b[i];
  }

  lemma TaggedOkSplits(c: Casing, schemas: seq<Row>, kind: nat, x: seq<Row>, y: seq<Row>)
    ensures ObjectsOk(c, schemas, Tag(kind, x + y)) <==>
      ObjectsOk(c, schemas, Tag(kind, x)) && ObjectsOk(c, schemas, Tag(kind, y))
  {
    TagSplits(kind, x, y);
    ObjectsOkSplits(c, schemas, Tag(kind, x), Tag(kind, y));
  }

  lemma EntryOkIff(c: Casing, schemas: seq<Row>, e: Entry, kind: nat)
    requires |e.lists| == SLOTS && 1 <= kind <= 5
    ensures ObjectsOk(c, schemas, Tag(kind, EntryRows(e, kind))) <==> KindKnown(c, schemas, e, kind)
  {
    forall slot | 0 <= slot < SLOTS
      ensures ObjectsOk(c, schemas, Tag(KindOf(slot), e.lists[slot])) <==> ListKnown(c, schemas, slot, e.lists[slot])
    {
      ListOkIff(c, schemas, slot, e.lists[slot]);
    }
    if kind == 3 {
      TaggedOkSplits(c, schemas, 3, e.lists[2] + e.lists[3], e.lists[4]);
      TaggedOkSplits(c, schemas, 3, e.lists[2], e.lists[3]);
    } else if kind == 4 {
      TaggedOkSplits(c, schemas, 4, e.lists[5], e.lists[6]);
    } else {
      assert KindOf(if kind == 5 then 7 else kind - 1) == kind;
    }
  }

  predicate AllKindKnown(c: Casing, schemas: seq<Row>, entries: seq<Entry>, kind: nat)
    requires Shaped(entries)
  {
    forall i :: 0 <= i < |entries| ==> KindKnown(c, schemas, entries[i], kind)
  }

  lemma KindKnownSnoc(c: Casing, schemas: seq<Row>, entries: seq<Entry>, kind: nat)
    requires Shaped(entries) && entries != []
    ensures AllKindKnown(c, schemas, entries, kind) <==>
            AllKindKnown(c, schemas, entries[..|entries| - 1], kind) &&
              KindKnown(c, schemas, entries[|entries| - 1], kind)
  {
    var init := entries[..|entries| - 1];
    assert forall i {:trigger entries[i]} {:trigger init[i]} :: 0 <= i < |init| ==> init[i] == entries[i];
  }

  lemma {:induction false} KindOkIff(c: Casing, schemas: seq<Row>, entries: seq<Entry>, kind: nat)
    requires Shaped(entries) && 1 <= kind <= 5
    ensures ObjectsOk(c, schemas, Tag(kind, KindRows(entries, kind))) <==> AllKindKnown(c, schemas, entries, kind)
  {
    if entries != [] {
      var n := |entries| - 1;
      KindOkIff(c, schemas, entries[..n], kind);
      KindKnownSnoc(c, schemas, entries, kind);
      EntryOkIff(c, schemas, entries[n], kind);
      TaggedOkSplits(c, schemas, kind, KindRows(entries[..n], kind), EntryRows(entries[n], kind));
    }
  }

  lemma {:induction false} ObjectsOkIff(c: Casing, schemas: seq<Row>, entries: seq<Entry>, n: nat)
    requires Shaped(entries) && n <= KINDS
    ensures ObjectsOk(c, schemas, Objects(AllKinds(entries), n)) <==>
            forall kind :: 1 <= kind < n ==> AllKindKnown(c, schemas, entries, kind)
  {
    if n > 1 {
      ObjectsOkIff(c, schemas, entries, n - 1);
      KindOkIff(c, schemas, entries, n - 1);
      ObjectsOkSplits(c, schemas, Objects(AllKinds(entries), n - 1), Tag(n - 1, KindRows(entries, n - 1)));
    }
  }

  lemma EncodedOkIff(c: Casing, schemas: seq<Row>, entries: seq<Entry>)
    requires Shaped(entries)
    ensures ObjectsOk(c, schemas, Objects(AllKinds(entries), KINDS)) <==> RowsKnown(c, schemas, entries)
  {
    ObjectsOkIff(c, schemas, entries, KINDS);
    if forall kind :: 1 <= kind < KINDS ==> AllKindKnown(c, schemas, entries, kind) {
      forall i, slot | 0 <= i < |entries| && 0 <= slot < SLOTS
        ensures ListKnown(c, schemas, slot, entries[i].lists[slot])
      {
        assert AllKindKnown(c, schemas, entries, KindOf(slot)) && KindKnown(c, schemas, entries[i], KindOf(slot));
      }
    }
  }

  predicate AllListed(c: Casing, schemas: seq<Row>, entries: seq<Entry>) {
    forall i :: 0 <= i < |entries| ==> entries[i].path != [] && Known(c, schemas, KeyOf(c, entries[i].path))
  }

  lemma FittingRowsAreKnown(c: Casing, schemas: seq<Row>, entries: seq<Entry>)
    requires AllEntriesFit(c, entries) && AllListed(c, schemas, entries) && Shaped(entries)
    ensures RowsKnown(c, schemas, entries)
  {
    forall i, slot | 0 <= i < |entries| && 0 <= slot < SLOTS
      ensures ListKnown(c, schemas, slot, entries[i].lists[slot])
    {
      var e := entries[i];
      forall j | 0 <= j < |e.lists[slot]| ensures ObjectOk(c, schemas, Tagged(KindOf(slot), e.lists[slot][j])) {
        assert EntryFits(c, e) && RowFits(c, e, slot, e.lists[slot][j]);
      }
    }
  }

  lemma {:induction false} SchemaStreamIsSchemaRows(entries: seq<Entry>)
    requires Shaped(entries)
    ensures KindRows(entries, 0) == SchemaRows(entries)
  {
    if entries != [] {
      SchemaStreamIsSchemaRows(entries[..|entries| - 1]);
    }
  }

  lemma ValidHasDistinctKeys(c: Casing, entries: seq<Entry>)
    requires ValidSnapshot(c, entries)
    ensures DistinctKeys(c, entries)
    ensures AllListed(c, SchemaRows(entries), entries)
  {
    var rows := SchemaRows(entries);
    forall i, j | 0 <= i < j < |entries|
      ensures KeyOf(c, entries[i].path) != KeyOf(c, entries[j].path)
    {
      assert SchemaOk(c, rows[..j], rows[j]);
      assert rows[..j][i] == rows[i] == entries[i].schema;
      assert EntryFits(c, entries[i]) && EntryFits(c, entries[j]);
    }
    forall i | 0 <= i < |entries|
      ensures entries[i].path != [] && Known(c, rows, KeyOf(c, entries[i].path))
    {
      assert SchemaOk(c, rows[..i], rows[i]);
      assert EntryFits(c, entries[i]);
      assert KeyOf(c, rows[i].path) == KeyOf(c, entries[i].path);
    }
  }

  predicate SelectsLists(c: Casing, e: Entry, objects: seq<Tagged>)
    requires |e.lists| == SLOTS
  {
    forall slot :: 0 <= slot < SLOTS ==> Select(c, objects, KeyOf(c, e.path), slot) == e.lists[slot]
  }

  lemma EntryComesBack(c: Casing, e: Entry, objects: seq<Tagged>)
    requires EntryFits(c, e) && SelectsLists(c, e, objects)
    ensures Group(c, e.schema, objects) == e
  {
    assert Group(c, e.schema, objects).lists == e.lists;
  }

  lemma EntrySelectsLists(c: Casing, entries: seq<Entry>, i: nat)
    requires Shaped(entries) && AllEntriesFit(c, entries) && DistinctKeys(c, entries) && i < |entries|
    ensures SelectsLists(c, entries[i], Objects(AllKinds(entries), KINDS))
  {
    forall slot | 0 <= slot < SLOTS
      ensures Select(c, Objects(AllKinds(entries), KINDS), KeyOf(c, entries[i].path), slot) == entries[i].lists[slot]
    {
      SelectObjects(c, entries, KINDS, i, slot);
    }
  }

  lemma AllComeBack(c: Casing, entries: seq<Entry>)
    requires Shaped(entries) && AllEntriesFit(c, entries) && DistinctKeys(c, entries)
    ensures Grouped(c, SchemaRows(entries), Objects(AllKinds(entries), KINDS)) == entries
  {
    forall i | 0 <= i < |entries|
      ensures Group(c, SchemaRows(entries)[i], Objects(AllKinds(entries), KINDS)) == entries[i]
    {
      EntrySelectsLists(c, entries, i);
      EntryComesBack(c, entries[i], Objects(AllKinds(entries), KINDS));
    }
  }

  lemma ValidRoundTrips(c: Casing, entries: seq<Entry>)
    requires Shaped(entries) && ValidSnapshot(c, entries)
    ensures Decode(c, AllKinds(entries)) == Some(entries)
  {
    ValidHasDistinctKeys(c, entries);
    AllComeBack(c, entries);
    FittingRowsAreKnown(c, SchemaRows(entries), entries);
    EncodedOkIff(c, SchemaRows(entries), entries);
    SchemaStreamIsSchemaRows(entries);
    DecodeExact(c, AllKinds(entries));
  }

  /** What decoding makes of any encoded snapshot, misfiled rows included: every row moves to the
      schema and list its own columns name. */
  lemma EncodedDecodes(c: Casing, entries: seq<Entry>)
    requires Shaped(entries)
    ensures Decode(c, AllKinds(entries)) ==
            if SchemasOk(c, SchemaRows(entries)) && RowsKnown(c, SchemaRows(entries), entries)
            then Some(Grouped(c, SchemaRows(entries), Objects(AllKinds(entries), KINDS))) else None
  {
    DecodeExact(c, AllKinds(entries));
    SchemaStreamIsSchemaRows(entries);
    EncodedOkIff(c, SchemaRows(entries), entries);
  }

  lemma {:induction false} SelectedRowsFit(c: Casing, objects: seq<Tagged>, key: Path, slot: nat, i: nat)
    requires i < |Select(c, objects, key, slot)|
    ensures Belongs(c, Tagged(KindOf(slot), Select(c, objects, key, slot)[i]), key, slot)
  {
    var n := |objects| - 1;
    if i < |Select(c, objects[..n], key, slot)| {
      SelectedRowsFit(c, objects[..n], key, slot, i);
    }
  }

  lemma GroupFits(c: Casing, row: Row, objects: seq<Tagged>)
    ensures EntryFits(c, Group(c, row, objects))
  {
    var e := Group(c, row, objects);
    forall slot, i | 0 <= slot < SLOTS && 0 <= i < |e.lists[slot]|
      ensures RowFits(c, e, slot, e.lists[slot][i])
    {
      SelectedRowsFit(c, objects, KeyOf(c, row.path), slot, i);
    }
  }

  /** Whatever decoding accepts, it returns a valid snapshot. */
  lemma DecodedIsValid(c: Casing, streams: seq<seq<Row>>)
    requires |streams| == KINDS && Decode(c, streams).Some?
    ensures Shaped(Decode(c, streams).value) && ValidSnapshot(c, Decode(c, streams).value)
  {
    DecodeExact(c, streams);
    var entries := Decode(c, streams).value;
    forall i | 0 <= i < |entries|
      ensures EntryFits(c, entries[i])
    {
      GroupFits(c, streams[0][i], Objects(streams, KINDS));
    }
    assert SchemaRows(entries) == streams[0];
  }

  /** Decoding the six encoded streams returns the snapshot exactly when it was
      valid: unique paths up to case, parents first, and every row in the entry
      and list its own columns name. */
  lemma RoundTripExact(c: Casing, entries: seq<Entry>)
    requires Shaped(entries)
    ensures Decode(c, AllKinds(entries)) == Some(entries) <==> ValidSnapshot(c, entries)
  {
    if ValidSnapshot(c, entries) {
      ValidRoundTrips(c, entries);
    } else if Decode(c, AllKinds(entries)).Some? {
      DecodedIsValid(c, AllKinds(entries));
    }
  }

  // ---- The two methods ------------------------------------------------------

  type Stream = Option<seq<seq<Row>>>

  /** `CatalogContentsResponse`. */
  datatype Response = Response(version: int, etag: Option<string>, notModified: bool, streams: seq<Stream>)

  function RowsOf(streams: seq<Stream>): seq<seq<Row>> {
    seq(|streams|, k requires 0 <= k < |streams| => StreamRows(streams[k]))
  }

  predicate NoStreams(streams: seq<Stream>) {
    forall k :: 0 <= k < |streams| ==> streams[k].None?
  }

  /** What a client may read out of a response: an empty snapshot from a
      "not modified" one (which must carry an etag and no metadata), else the
      decoded rows. */
  function DecodeResponse(c: Casing, r: Response): Option<seq<Entry>> {
    if r.notModified then
      if r.etag.Some? && NoStreams(r.streams) then Some([]) else None
    else Decode(c, RowsOf(r.streams))
  }

  method ReadBatch(c: Casing, st0: Table, kind: nat, batch: seq<Row>) returns (r: Option<Table>)
    requires Indexed(st0)
    ensures r == Fold(c, st0, Tag(kind, batch))
  {
    var st := st0;
    for i := 0 to |batch|
      invariant Indexed(st)
      invariant Fold(c, st0, Tag(kind, batch[..i])) == Some(st)
    {
      assert Tag(kind, batch[..i + 1])[..i] == Tag(kind, batch[..i]);
      assert Tag(kind, batch) == Tag(kind, batch[..i + 1]) + Tag(kind, batch[i + 1..]);
      FoldSplits(c, st0, Tag(kind, batch[..i + 1]), Tag(kind, batch[i + 1..]));
      match Step(c, st, Tagged(kind, batch[i])) {
        case None => return None;
        case Some(next) => st := next;
      }
    }
    assert batch[..|batch|] == batch;
    return Some(st);
  }

  lemma BatchOneMore(c: Casing, st: Table, kind: nat, rows: seq<Row>, batch: seq<Row>)
    requires Indexed(st)
    ensures Fold(c, st, Tag(kind, rows + batch)) == ReadFrom(c, Fold(c, st, Tag(kind, rows)), Tag(kind, batch))
  {
    TagSplits(kind, rows, batch);
    FoldSplits(c, st, Tag(kind, rows), Tag(kind, batch));
  }

  method ReadStream(c: Casing, st0: Table, kind: nat, batches: seq<seq<Row>>) returns (r: Option<Table>)
    requires Indexed(st0)
    ensures r == Fold(c, st0, Tag(kind, Flatten(batches)))
  {
    r := Some(st0);
    for i := 0 to |batches|
      invariant r.Some? ==> Indexed(r.value)
      invariant r == Fold(c, st0, Tag(kind, Flatten(batches[..i])))
    {
      FlattenSnoc(batches[..i], batches[i]);
      assert batches[..i + 1] == batches[..i] + [batches[i]];
      BatchOneMore(c, st0, kind, Flatten(batches[..i]), batches[i]);
      if r.Some? {
        r := ReadBatch(c, r.value, kind, batches[i]);
      }
    }
    assert batches[..|batches|] == batches;
  }

  function ReadFrom(c: Casing, st: Option<Table>, rows: seq<Tagged>): Option<Table>
    requires st.Some? ==> Indexed(st.value)
  {
    if st.None? then None else Fold(c, st.value, rows)
  }

  lemma ReadOneMore(c: Casing, st: Table, rows: seq<seq<Row>>, kind: nat)
    requires kind < |rows| && Indexed(st)
    ensures Fold(c, st, ReadOrder(rows, kind + 1)) ==
      ReadFrom(c, Fold(c, st, ReadOrder(rows, kind)), Tag(kind, rows[kind]))
  {
    FoldSplits(c, st, ReadOrder(rows, kind), Tag(kind, rows[kind]));
  }

  /** An absent field has no rows. */
  method ReadField(c: Casing, st: Table, kind: nat, stream: Stream) returns (r: Option<Table>)
    requires Indexed(st)
    ensures r == Fold(c, st, Tag(kind, StreamRows(stream)))
  {
    match stream {
      case None =>
        assert Tag(kind, []) == [];
        r := Some(st);
      case Some(batches) =>
        r := ReadStream(c, st, kind, batches);
    }
  }

  method ReadStreams(c: Casing, st0: Table, streams: seq<Stream>, ghost rows: seq<seq<Row>>) returns (st: Option<Table>)
    requires Indexed(st0) && rows == RowsOf(streams)
    ensures st == Fold(c, st0, ReadOrder(rows, |rows|))
  {
    st := Some(st0);
    for kind := 0 to |streams|
      invariant st.Some? ==> Indexed(st.value)
      invariant st == Fold(c, st0, ReadOrder(rows, kind))
    {
      ReadOneMore(c, st0, rows, kind);
      if st.Some? {
        st := ReadField(c, st.value, kind, streams[kind]);
      }
    }
  }

  method HasNoStreams(streams: seq<Stream>) returns (r: bool)
    ensures r <==> NoStreams(streams)
  {
    for k := 0 to |streams|
      invariant forall j :: 0 <= j < k ==> streams[j].None?
    {
      if streams[k].Some? {
        return false;
      }
    }
    return true;
  }

  /** vgi/catalog_collection.go, `decodeCatalogStreams`. */
  method DecodeCatalogStreams(c: Casing, response: Response) returns (r: Option<seq<Entry>>)
    ensures r == DecodeResponse(c, response)
  {
    if response.notModified {
      if response.etag.None? {
        return None;
      }
      var empty := HasNoStreams(response.streams);
      return if empty then Some([]) else None;
    }
    var st := ReadStreams(c, EmptyTable(), response.streams, RowsOf(response.streams));
    return match st case None => None case Some(table) => Some(table.out);
  }

  /** Each metadata item is its own one-row stream. */
  function Singles(rows: seq<Row>): seq<seq<seq<Row>>> {
    seq(|rows|, i requires 0 <= i < |rows| => [[rows[i]]])
  }

  lemma {:induction false} SinglesKeepRows(rows: seq<Row>)
    ensures ItemRows(Singles(rows)) == rows
  {
    if rows != [] {
      var n := |rows| - 1;
      SinglesKeepRows(rows[..n]);
      assert Singles(rows)[..n] == Singles(rows[..n]);
      assert Flatten([[rows[n]]]) == Flatten<Row>([]) + [rows[n]];
    }
  }

  /** The item lists of the six categories. */
  method CollectItems(schemas: seq<Entry>) returns (items: seq<seq<Row>>)
    requires Shaped(schemas)
    ensures items == AllKinds(schemas)
  {
    items := seq(KINDS, k => []);
    for i := 0 to |schemas|
      invariant Shaped(schemas[..i])
      invariant items == AllKinds(schemas[..i])
    {
      var s := schemas[i];
      assert schemas[..i + 1][..i] == schemas[..i];
      items := [
        items[0] + [s.schema],
        items[1] + s.lists[0],
        items[2] + s.lists[1],
        items[3] + (s.lists[2] + s.lists[3] + s.lists[4]),
        items[4] + (s.lists[5] + s.lists[6]),
        items[5] + s.lists[7]];
      assert forall k :: 0 <= k < KINDS ==> items[k] == KindRows(schemas[..i], k) + EntryRows(s, k);
    }
    assert schemas[..|schemas|] == schemas;
  }

  predicate AllServed(rows: seq<seq<Row>>, streams: seq<Stream>) {
    |rows| == |streams| && forall k :: 0 <= k < |rows| ==> Served(rows[k], streams[k])
  }

  lemma ServedRows(rows: seq<seq<Row>>, streams: seq<Stream>)
    requires AllServed(rows, streams)
    ensures RowsOf(streams) == rows
  {
    forall k | 0 <= k < |rows|
      ensures StreamRows(streams[k]) == rows[k]
    {
      assert Served(rows[k], streams[k]);
    }
  }

  /** vgi/catalog_collection.go, `encodeCatalogStreams`: the six fields hold
      the rows of the snapshot category by category, batched by 1024, and the
      call succeeds exactly when they decode. */
  method EncodeCatalogStreams(c: Casing, version: int, etag: Option<string>, schemas: seq<Entry>)
    returns (r: Option<Response>)
    requires Shaped(schemas)
    ensures r.Some? <==> Decode(c, AllKinds(schemas)).Some?
    ensures r.Some? ==> AllServed(AllKinds(schemas), r.value.streams)
    ensures r.Some? ==> r.value.version == version && r.value.etag == etag && !r.value.notModified
    ensures ValidSnapshot(c, schemas) ==> r.Some?
    ensures r.Some? ==> (DecodeResponse(c, r.value) == Some(schemas) <==> ValidSnapshot(c, schemas))
  {
    RoundTripExact(c, schemas);
    var items := CollectItems(schemas);
    var streams: seq<Stream> := [];
    for k := 0 to KINDS
      invariant AllServed(items[..k], streams)
    {
      SinglesKeepRows(items[k]);
      var data := CombineCatalogItems(Singles(items[k]));
      streams := streams + [data];
    }
    assert items[..KINDS] == items;
    ServedRows(items, streams);
    var response := Response(version, etag, false, streams);
    var decoded := DecodeCatalogStreams(c, response);
    return if decoded.Some? then Some(response) else None;
  }
}
