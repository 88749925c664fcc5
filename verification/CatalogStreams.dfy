/**
  The six-stream form of a catalog snapshot: grouping the rows of many schemas
  into one stream per category and recovering the grouped form again
  (vgi/catalog_collection.go, `encodeCatalogStreams` and
  `decodeCatalogStreams`).

  A one-row metadata record is an abstract row: the schema path it names, the
  dictionary value of its subtype column, and everything else.  A path key is
  the list of lower-cased components; its JSON text, used as a Go map key, is
  injective on such lists.
 */
module CatalogStreams {
  import opened Wrappers

  type Path = seq<string>

  /** `strings.ToLower` and `strings.ToUpper`; nothing is assumed of them. */
  datatype Casing = Casing(lower: string -> string, upper: string -> string)

  function KeyOf(c: Casing, path: Path): Path {
    seq(|path|, i requires 0 <= i < |path| => c.lower(path[i]))
  }

  datatype Row = Row(path: Path, subtype: string, rest: string)

  /** `SchemaContents`: the eight item lists in wire order are tables, views,
      scalar, aggregate and table functions, scalar and table macros, indexes. */
  datatype Entry = Entry(path: Path, schema: Row, lists: seq<seq<Row>>)

  const SLOTS := 8
  const KINDS := 6

  predicate Shaped(entries: seq<Entry>) {
    forall i :: 0 <= i < |entries| ==> |entries[i].lists| == SLOTS
  }

  /** The list a row of category `kind` (1 to 5) belongs to, by its subtype. */
  function SlotOf(c: Casing, kind: nat, row: Row): (slot: Option<nat>)
    ensures slot.Some? ==> slot.value < SLOTS && kind == KindOf(slot.value)
  {
    var value := c.upper(row.subtype);
    if kind == 1 then Some(0)
    else if kind == 2 then Some(1)
    else if kind == 3 && value == "SCALAR" then Some(2)
    else if kind == 3 && value == "AGGREGATE" then Some(3)
    else if kind == 3 && (value == "TABLE" || value == "TABLE_BUFFERING") then Some(4)
    else if kind == 4 && value == "SCALAR" then Some(5)
    else if kind == 4 && value == "TABLE" then Some(6)
    else if kind == 5 then Some(7)
    else None
  }

  function KindOf(slot: nat): nat {
    if slot <= 1 then slot + 1 else if slot <= 4 then 3 else if slot <= 6 then 4 else 5
  }

  // ---- Decoding, row by row ----------------------------------------------

  datatype Tagged = Tagged(kind: nat, row: Row)

  /** What the decoder has built: the entries, and the position of each key. */
  datatype Table = Table(out: seq<Entry>, index: map<Path, nat>)

  predicate Indexed(st: Table) {
    && Shaped(st.out)
    && forall key :: key in st.index ==> st.index[key] < |st.out|
  }

  function Opened(row: Row): Entry {
    Entry(row.path, row, seq(SLOTS, i => []))
  }

  function Insert(e: Entry, slot: nat, row: Row): Entry
    requires slot < |e.lists|
  {
    e.(lists := e.lists[slot := e.lists[slot] + [row]])
  }

  /** One row of the stream `t.kind`: the error returns of the loop body, or
      the new table. */
  function Step(c: Casing, st: Table, t: Tagged): (r: Option<Table>)
    requires Indexed(st)
    ensures r.Some? ==> Indexed(r.value)
  {
    var path := t.row.path;
    var key := KeyOf(c, path);
    if path == [] then None
    else if t.kind == 0 then
      if key in st.index then None
      else if |path| > 1 && KeyOf(c, path[..|path| - 1]) !in st.index then None
      else Some(Table(st.out + [Opened(t.row)], st.index[key := |st.out|]))
    else if key !in st.index then None
    else match SlotOf(c, t.kind, t.row)
      case None => None
      case Some(slot) =>
        var pos := st.index[key];
        Some(st.(out := st.out[pos := Insert(st.out[pos], slot, t.row)]))
  }

  function Fold(c: Casing, st: Table, rows: seq<Tagged>): (r: Option<Table>)
    requires Indexed(st)
    ensures r.Some? ==> Indexed(r.value)
  {
    if rows == [] then Some(st)
    else match Fold(c, st, rows[..|rows| - 1])
      case None => None
      case Some(mid) => Step(c, mid, rows[|rows| - 1])
  }

  function Tag(kind: nat, rows: seq<Row>): seq<Tagged> {
    seq(|rows|, i requires 0 <= i < |rows| => Tagged(kind, rows[i]))
  }

  /** The rows of the first `n` streams, in the order they are read. */
  function ReadOrder(streams: seq<seq<Row>>, n: nat): seq<Tagged>
    requires n <= |streams|
  {
    if n == 0 then [] else ReadOrder(streams, n - 1) + Tag(n - 1, streams[n - 1])
  }

  function EmptyTable(): (st: Table)
    ensures Indexed(st)
  {
    Table([], map[])
  }

  function Decode(c: Casing, streams: seq<seq<Row>>): Option<seq<Entry>> {
    match Fold(c, EmptyTable(), ReadOrder(streams, |streams|))
    case None => None
    case Some(st) => Some(st.out)
  }

  lemma {:induction false} FoldSplits(c: Casing, st: Table, a: seq<Tagged>, b: seq<Tagged>)
    requires Indexed(st)
    ensures Fold(c, st, a + b) == match Fold(c, st, a) case None => None case Some(mid) => Fold(c, mid, b)
  {
    if b == [] {
      assert a + b == a;
    } else {
      FoldSplits(c, st, a, b[..|b| - 1]);
      assert (a + b)[..|a + b| - 1] == a + b[..|b| - 1];
    }
  }

  // ---- What decoding computes, without the table --------------------------

  predicate Known(c: Casing, schemas: seq<Row>, key: Path) {
    exists j :: 0 <= j < |schemas| && KeyOf(c, schemas[j].path) == key
  }

  /** A schema row is acceptable after `earlier`: its path is new up to case,
      and its parent came before it. */
  predicate SchemaOk(c: Casing, earlier: seq<Row>, row: Row) {
    && row.path != []
    && !Known(c, earlier, KeyOf(c, row.path))
    && (|row.path| > 1 ==> Known(c, earlier, KeyOf(c, row.path[..|row.path| - 1])))
  }

  predicate SchemasOk(c: Casing, schemas: seq<Row>) {
    forall i :: 0 <= i < |schemas| ==> SchemaOk(c, schemas[..i], schemas[i])
  }

  predicate ObjectOk(c: Casing, schemas: seq<Row>, t: Tagged) {
    t.row.path != [] && Known(c, schemas, KeyOf(c, t.row.path)) && SlotOf(c, t.kind, t.row).Some?
  }

  predicate ObjectsOk(c: Casing, schemas: seq<Row>, objects: seq<Tagged>) {
    forall i :: 0 <= i < |objects| ==> ObjectOk(c, schemas, objects[i])
  }

  predicate Belongs(c: Casing, t: Tagged, key: Path, slot: nat) {
    KeyOf(c, t.row.path) == key && SlotOf(c, t.kind, t.row) == Some(slot)
  }

  /** The rows of `objects` in the given schema and list, in stream order. */
  function Select(c: Casing, objects: seq<Tagged>, key: Path, slot: nat): seq<Row> {
    if objects == [] then []
    else
      var t := objects[|objects| - 1];
      Select(c, objects[..|objects| - 1], key, slot) + if Belongs(c, t, key, slot) then [t.row] else []
  }

  function Group(c: Casing, row: Row, objects: seq<Tagged>): Entry {
    Entry(row.path, row, seq(SLOTS, slot requires 0 <= slot => Select(c, objects, KeyOf(c, row.path), slot)))
  }

  /** One entry per schema row, in order, each with its own rows. */
  function Grouped(c: Casing, schemas: seq<Row>, objects: seq<Tagged>): seq<Entry> {
    seq(|schemas|, i requires 0 <= i < |schemas| => Group(c, schemas[i], objects))
  }

  // ---- Decoding computes exactly that --------------------------------------

  predicate IndexIs(c: Casing, schemas: seq<Row>, index: map<Path, nat>) {
    && (forall key :: key in index ==> Known(c, schemas, key))
    && (forall i :: 0 <= i < |schemas| ==>
          KeyOf(c, schemas[i].path) in index && index[KeyOf(c, schemas[i].path)] == i)
  }

  predicate Describes(c: Casing, schemas: seq<Row>, objects: seq<Tagged>, st: Table) {
    IndexIs(c, schemas, st.index) && st.out == Grouped(c, schemas, objects)
  }

  lemma KnownIsIndexed(c: Casing, schemas: seq<Row>, index: map<Path, nat>, key: Path)
    requires IndexIs(c, schemas, index)
    ensures key in index <==> Known(c, schemas, key)
  {
  }

  lemma OneMoreIndexed(c: Casing, schemas: seq<Row>, row: Row, index: map<Path, nat>)
    requires IndexIs(c, schemas, index)
    requires !Known(c, schemas, KeyOf(c, row.path))
    ensures IndexIs(c, schemas + [row], index[KeyOf(c, row.path) := |schemas|])
  {
    var all := schemas + [row];
    var key := KeyOf(c, row.path);
    forall k | k in index[key := |schemas|]
      ensures Known(c, all, k)
    {
      if k == key {
        assert KeyOf(c, all[|schemas|].path) == k;
      } else {
        var j :| 0 <= j < |schemas| && KeyOf(c, schemas[j].path) == k;
        assert KeyOf(c, all[j].path) == k;
      }
    }
    forall i | 0 <= i < |schemas|
      ensures KeyOf(c, all[i].path) != key
    {
      assert all[i] == schemas[i];
    }
  }

  lemma SchemaStep(c: Casing, schemas: seq<Row>, row: Row, st: Table)
    requires Indexed(st) && Describes(c, schemas, [], st)
    ensures Step(c, st, Tagged(0, row)).Some? <==> SchemaOk(c, schemas, row)
    ensures SchemaOk(c, schemas, row) ==> Describes(c, schemas + [row], [], Step(c, st, Tagged(0, row)).value)
  {
    KnownIsIndexed(c, schemas, st.index, KeyOf(c, row.path));
    if |row.path| > 1 {
      KnownIsIndexed(c, schemas, st.index, KeyOf(c, row.path[..|row.path| - 1]));
    }
    if SchemaOk(c, schemas, row) {
      OneMoreIndexed(c, schemas, row, st.index);
      assert Opened(row).lists == Group(c, row, []).lists;
      assert Grouped(c, schemas + [row], []) == Grouped(c, schemas, []) + [Group(c, row, [])];
    }
  }

  lemma SchemasOkSnoc(c: Casing, schemas: seq<Row>)
    requires schemas != []
    ensures SchemasOk(c, schemas) <==>
            SchemasOk(c, schemas[..|schemas| - 1]) && SchemaOk(c, schemas[..|schemas| - 1], schemas[|schemas| - 1])
  {
    var init := schemas[..|schemas| - 1];
    assert forall i {:trigger schemas[i]} {:trigger init[i]} :: 0 <= i < |init| ==>
      init[i] == schemas[i] && init[..i] == schemas[..i];
  }

  lemma {:induction false} FoldSchemas(c: Casing, schemas: seq<Row>)
    ensures Fold(c, EmptyTable(), Tag(0, schemas)).Some? <==> SchemasOk(c, schemas)
    ensures SchemasOk(c, schemas) ==> Describes(c, schemas, [], Fold(c, EmptyTable(), Tag(0, schemas)).value)
  {
    if schemas != [] {
      var init := schemas[..|schemas| - 1];
      var row := schemas[|schemas| - 1];
      FoldSchemas(c, init);
      SchemasOkSnoc(c, schemas);
      assert Tag(0, schemas)[..|init|] == Tag(0, init);
      if SchemasOk(c, init) {
        SchemaStep(c, init, row, Fold(c, EmptyTable(), Tag(0, init)).value);
        assert init + [row] == schemas;
      }
    }
  }

  /** Adding one object changes one list of one entry. */
  lemma GroupStep(c: Casing, row: Row, objects: seq<Tagged>, t: Tagged, slot: nat)
    requires SlotOf(c, t.kind, t.row) == Some(slot)
    ensures Group(c, row, objects + [t]) ==
            if KeyOf(c, t.row.path) == KeyOf(c, row.path) then Insert(Group(c, row, objects), slot, t.row)
            else Group(c, row, objects)
  {
    var key := KeyOf(c, row.path);
    assert (objects + [t])[..|objects|] == objects;
    var before, after := Group(c, row, objects).lists, Group(c, row, objects + [t]).lists;
    forall s | 0 <= s < SLOTS
      ensures after[s] == if Belongs(c, t, key, s) then before[s] + [t.row] else before[s]
    {
      assert before[s] + [] == before[s];
    }
    if KeyOf(c, t.row.path) == key {
      assert after == before[slot := before[slot] + [t.row]];
    } else {
      assert after == before;
    }
  }

  lemma ObjectStep(c: Casing, schemas: seq<Row>, objects: seq<Tagged>, t: Tagged, st: Table)
    requires Indexed(st) && Describes(c, schemas, objects, st) && t.kind != 0
    ensures Step(c, st, t).Some? <==> ObjectOk(c, schemas, t)
    ensures ObjectOk(c, schemas, t) ==> Describes(c, schemas, objects + [t], Step(c, st, t).value)
  {
    var key := KeyOf(c, t.row.path);
    KnownIsIndexed(c, schemas, st.index, key);
    if ObjectOk(c, schemas, t) {
      var slot := SlotOf(c, t.kind, t.row).value;
      var pos := st.index[key];
      var next := Step(c, st, t).value;
      var want := Grouped(c, schemas, objects + [t]);
      forall i | 0 <= i < |schemas|
        ensures next.out[i] == want[i]
      {
        GroupStep(c, schemas[i], objects, t, slot);
        assert i == pos <==> KeyOf(c, schemas[i].path) == key;
      }
      assert next.out == want;
    }
  }

  lemma ObjectsOkSnoc(c: Casing, schemas: seq<Row>, objects: seq<Tagged>)
    requires objects != []
    ensures ObjectsOk(c, schemas, objects) <==>
            ObjectsOk(c, schemas, objects[..|objects| - 1]) && ObjectOk(c, schemas, objects[|objects| - 1])
  {
  }

  lemma {:induction false} FoldObjects(c: Casing, schemas: seq<Row>, objects: seq<Tagged>, st: Table)
    requires Indexed(st) && Describes(c, schemas, [], st)
    requires forall i :: 0 <= i < |objects| ==> objects[i].kind != 0
    ensures Fold(c, st, objects).Some? <==> ObjectsOk(c, schemas, objects)
    ensures ObjectsOk(c, schemas, objects) ==> Describes(c, schemas, objects, Fold(c, st, objects).value)
  {
    if objects != [] {
      var init := objects[..|objects| - 1];
      var t := objects[|objects| - 1];
      FoldObjects(c, schemas, init, st);
      ObjectsOkSnoc(c, schemas, objects);
      if ObjectsOk(c, schemas, init) {
        ObjectStep(c, schemas, init, t, Fold(c, st, init).value);
        assert init + [t] == objects;
      }
    }
  }

  /** The object rows: the streams after the first, in read order. */
  function Objects(streams: seq<seq<Row>>, n: nat): seq<Tagged>
    requires n <= |streams|
  {
    if n <= 1 then [] else Objects(streams, n - 1) + Tag(n - 1, streams[n - 1])
  }

  lemma {:induction false} SchemasAreReadFirst(streams: seq<seq<Row>>, n: nat)
    requires 1 <= n <= |streams|
    ensures ReadOrder(streams, n) == Tag(0, streams[0]) + Objects(streams, n)
    ensures forall i :: 0 <= i < |Objects(streams, n)| ==> Objects(streams, n)[i].kind != 0
  {
    if n > 1 {
      SchemasAreReadFirst(streams, n - 1);
    } else {
      assert ReadOrder(streams, 1) == ReadOrder(streams, 0) + Tag(0, streams[0]);
    }
  }

  /** Decoding accepts a response exactly when its schema rows are new,
      parent-first and its objects name known schemas with known subtypes, and
      then returns one entry per schema row with exactly its rows, in stream
      order. */
  lemma DecodeExact(c: Casing, streams: seq<seq<Row>>)
    requires |streams| == KINDS
    ensures Decode(c, streams) ==
            if SchemasOk(c, streams[0]) && ObjectsOk(c, streams[0], Objects(streams, KINDS))
            then Some(Grouped(c, streams[0], Objects(streams, KINDS))) else None
  {
    SchemasAreReadFirst(streams, KINDS);
    FoldSplits(c, EmptyTable(), Tag(0, streams[0]), Objects(streams, KINDS));
    FoldSchemas(c, streams[0]);
    if SchemasOk(c, streams[0]) {
      FoldObjects(c, streams[0], Objects(streams, KINDS), Fold(c, EmptyTable(), Tag(0, streams[0])).value);
    }
  }
}
