/**
  Two ways to answer `catalog_contents` from a static catalog: the composed one
  lists schema by schema, sorts, groups and combines (vgi/catalog_contents.go),
  the direct one appends records to six lists in one pass
  (vgi/catalog_collection_direct.go).  They are proved to give the same answer.
 */
module CatalogContents {
  import opened Wrappers
  import opened CatalogBatches
  import opened CatalogStreams
  import opened CatalogCodec
  import opened StableSort
  import opened CatalogListing

  // ---- Objects of one schema ----------------------------------------------

  /** vgi/protocol.go, `normalizeFunctionType`. */
  function NormalizeFunctionType(ft: string): string {
    if ft in {"SCALAR", "SCALAR_FUNCTION", "scalar"} then "SCALAR"
    else if ft in {"TABLE", "TABLE_FUNCTION", "table"} then "TABLE"
    else if ft in {"AGGREGATE", "AGGREGATE_FUNCTION", "aggregate"} then "AGGREGATE"
    else if ft in {"TABLE_BUFFERING", "table_buffering"} then "TABLE_BUFFERING"
    else ft
  }

  /** `functionListingKind`: an unrecognized type filters nothing. */
  function FunctionListingKind(requested: string): string {
    var want := NormalizeFunctionType(requested);
    if requested != "" && want in {"TABLE", "SCALAR", "AGGREGATE"} then want else ""
  }

  predicate ListsFunction(kind: string, ft: string) {
    kind == "" || ft == kind || (kind == "TABLE" && ft == "TABLE_BUFFERING")
  }

  predicate Owns(catalogName: string, f: Function) {
    !f.unlisted && (catalogName == "" || catalogName == f.home)
  }

  function CanonicalMacroType(kind: string): string {
    if kind == "SCALAR" || kind == "scalar" then "SCALAR"
    else if kind == "TABLE" || kind == "table" then "TABLE"
    else ""
  }

  function MacroKindFilter(requested: string): string {
    if requested in {"scalar_macro", "SCALAR_MACRO", "scalar", "SCALAR"} then "SCALAR"
    else if requested in {"table_macro", "TABLE_MACRO", "table", "TABLE"} then "TABLE"
    else ""
  }

  /** The rows built from the kept elements, or nothing if a build fails. */
  function BuildWhere<T>(keep: T -> bool, build: T -> Option<Row>, xs: seq<T>): Option<seq<Row>> {
    if xs == [] then Some([])
    else
      var x := xs[|xs| - 1];
      match BuildWhere(keep, build, xs[..|xs| - 1])
      case None => None
      case Some(rows) =>
        if !keep(x) then Some(rows)
        else match build(x)
          case None => None
          case Some(row) => Some(rows + [row])
  }

  // What each listing keeps and how it builds a row, as function values.

  function Keeps(kind: string, catalogName: string): Function -> bool {
    (f: Function) => ListsFunction(kind, f.kind) && Owns(catalogName, f)
  }

  function KeepsMacro(want: string): Macro -> bool {
    (m: Macro) => want == "" || CanonicalMacroType(m.kind) == want
  }

  function KeepsAll(): string -> bool {
    (t: string) => true
  }

  function TableBuilder(cfg: Config, path: Path): string -> Option<Row> {
    (t: string) => cfg.build.tableRow(path, t)
  }

  function ViewBuilder(cfg: Config, path: Path): string -> Option<Row> {
    (v: string) => cfg.build.viewRow(path, v)
  }

  function MacroBuilder(cfg: Config, path: Path): Macro -> Option<Row> {
    (m: Macro) => cfg.build.macroRow(path, m)
  }

  /** The four listings of one schema; an unknown schema has no items. */
  function FunctionItems(cfg: Config, schemaKey: string, requested: string, catalogName: string): Option<seq<Row>> {
    if schemaKey !in cfg.schemas then Some([])
    else BuildWhere(Keeps(FunctionListingKind(requested), catalogName), cfg.build.functionRow,
      cfg.schemas[schemaKey].functions)
  }

  function TableItems(cfg: Config, path: Path): Option<seq<Row>> {
    var key := PathKey(cfg.casing, path);
    if key !in cfg.schemas then Some([]) else BuildWhere(KeepsAll(), TableBuilder(cfg, path), cfg.schemas[key].tables)
  }

  function ViewItems(cfg: Config, path: Path): Option<seq<Row>> {
    var key := PathKey(cfg.casing, path);
    if key !in cfg.schemas then Some([]) else BuildWhere(KeepsAll(), ViewBuilder(cfg, path), cfg.schemas[key].views)
  }

  function MacroItems(cfg: Config, path: Path, requested: string): Option<seq<Row>> {
    var key := PathKey(cfg.casing, path);
    if key !in cfg.schemas then Some([])
    else BuildWhere(KeepsMacro(MacroKindFilter(requested)), MacroBuilder(cfg, path), cfg.schemas[key].macros)
  }

  predicate Enabled(info: Info, kind: string) {
    kind !in info.counts || info.counts[kind] != 0
  }

  // ---- The composed answer ---------------------------------------------------

  function Unless(enabled: bool, items: Option<seq<Row>>): Option<seq<Row>> {
    if enabled then items else Some([])
  }

  /** The items of one schema for one of the eight lists; a kind whose count is
      known to be 0 is not computed. */
  function SlotItems(cfg: Config, catalogName: string, info: Info, slot: nat): Option<seq<Row>> {
    var key := PathKey(cfg.casing, info.path);
    if slot == 0 then Unless(Enabled(info, "table"), TableItems(cfg, info.path))
    else if slot == 1 then Unless(Enabled(info, "view"), ViewItems(cfg, info.path))
    else if slot == 2 then Unless(Enabled(info, "scalar_function"),
      FunctionItems(cfg, key, "SCALAR_FUNCTION", catalogName))
    else if slot == 3 then Unless(Enabled(info, "aggregate_function"),
      FunctionItems(cfg, key, "AGGREGATE_FUNCTION", catalogName))
    else if slot == 4 then Unless(Enabled(info, "table_function"),
      FunctionItems(cfg, key, "TABLE_FUNCTION", catalogName))
    else if slot == 5 then Unless(Enabled(info, "macro"), MacroItems(cfg, info.path, "SCALAR_MACRO"))
    else if slot == 6 then Unless(Enabled(info, "macro"), MacroItems(cfg, info.path, "TABLE_MACRO"))
    else Some([])
  }

  predicate AllBuilt(cfg: Config, catalogName: string, info: Info) {
    forall slot :: 0 <= slot < SLOTS ==> SlotItems(cfg, catalogName, info, slot).Some?
  }

  /** `schemaContentsOf`. */
  function ComposeEntry(cfg: Config, catalogName: string, info: Info): Option<Entry> {
    match cfg.build.schemaRow(info)
    case None => None
    case Some(row) =>
      if !AllBuilt(cfg, catalogName, info) then None
      else Some(Entry(info.path, row,
                      seq(SLOTS, slot requires 0 <= slot < SLOTS && AllBuilt(cfg, catalogName, info) =>
                            SlotItems(cfg, catalogName, info, slot).value)))
  }

  /** `defaultCatalogContents`, after listing the schemas. */
  function ComposeAll(cfg: Config, catalogName: string, infos: seq<Info>): (r: Option<seq<Entry>>)
    ensures r.Some? ==> Shaped(r.value)
  {
    if infos == [] then Some([])
    else match ComposeAll(cfg, catalogName, infos[..|infos| - 1])
      case None => None
      case Some(entries) =>
        match ComposeEntry(cfg, catalogName, infos[|infos| - 1])
        case None => None
        case Some(e) => Some(entries + [e])
  }

  predicate HasKey(c: Casing, entries: seq<Entry>, key: string) {
    exists i :: 0 <= i < |entries| && PathKey(c, entries[i].path) == key
  }

  predicate EntryPathOk(c: Casing, entries: seq<Entry>, i: nat, verifyItems: bool)
    requires i < |entries|
  {
    && entries[i].path != []
    && !HasKey(c, entries[..i], PathKey(c, entries[i].path))
    && (verifyItems ==> entries[i].schema.path == entries[i].path)
  }

  predicate ParentOk(c: Casing, entries: seq<Entry>, i: nat)
    requires i < |entries|
  {
    var path := entries[i].path;
    |path| > 1 ==> HasKey(c, entries, PathKey(c, path[..|path| - 1]))
  }

  /** `checkContentsPaths`. */
  predicate PathsOk(c: Casing, entries: seq<Entry>, verifyItems: bool) {
    && (forall i :: 0 <= i < |entries| ==> EntryPathOk(c, entries, i, verifyItems))
    && (forall i :: 0 <= i < |entries| ==> ParentOk(c, entries, i))
  }

  function DepthOrder(): (Entry, Entry) -> bool {
    (a: Entry, b: Entry) => |a.path| < |b.path|
  }

  /** Whether the worker hashes the streams into an etag, and the hash. */
  datatype EtagMode = EtagMode(contentHash: bool, digest: (int, seq<Stream>) -> string)

  function StreamsOf(rows: seq<seq<Row>>): seq<Stream> {
    seq(|rows|, k requires 0 <= k < |rows| => StreamOf(rows[k]))
  }

  function NotModifiedResponse(version: int, etag: string): Response {
    Response(version, Some(etag), true, seq(KINDS, k => None))
  }

  /** What is returned for the encoded streams: the etag, and "not modified"
      when the request already has it. */
  function Finish(mode: EtagMode, version: int, etag: Option<string>, ifNoneMatch: Option<string>,
                  streams: seq<Stream>): Response {
    var tag := if etag.None? && mode.contentHash then Some(mode.digest(version, streams)) else etag;
    if tag.Some? && ifNoneMatch == tag then NotModifiedResponse(version, tag.value)
    else Response(version, tag, false, streams)
  }

  /** A snapshot supplied by a handler, or composed by default. */
  datatype Snapshot = Snapshot(schemas: seq<Entry>, etag: Option<string>, notModified: bool)

  /** `answerCatalogContents`: the protocol's rules over a supplied snapshot. */
  function Answer(c: Casing, mode: EtagMode, given: Snapshot, fromHandler: bool, version: int,
                  ifNoneMatch: Option<string>): Option<Response>
    requires Shaped(given.schemas)
  {
    if given.notModified then
      if given.etag.None? || ifNoneMatch != given.etag || given.schemas != [] then None
      else Some(NotModifiedResponse(version, given.etag.value))
    else if !PathsOk(c, given.schemas, fromHandler) then None
    else
      SortedIsShaped(DepthOrder(), given.schemas);
      var rows := AllKinds(Sort(DepthOrder(), given.schemas));
      if Decode(c, rows).None? then None
      else Some(Finish(mode, version, given.etag, ifNoneMatch, StreamsOf(rows)))
  }

  lemma SortedIsShaped(before: (Entry, Entry) -> bool, entries: seq<Entry>)
    requires Shaped(entries)
    ensures Shaped(Sort(before, entries))
  {
    var sorted := Sort(before, entries);
    SortKeepsElements(before, entries);
    forall i | 0 <= i < |sorted|
      ensures |sorted[i].lists| == SLOTS
    {
      assert sorted[i] in multiset(sorted);
      assert sorted[i] in multiset(entries);
    }
  }

  /** The composed answer of the default catalog. */
  ghost function ComposedAnswer(cfg: Config, mode: EtagMode, attach: string, version: int,
                                ifNoneMatch: Option<string>): Option<Response> {
    match ComposeAll(cfg, CatalogOf(cfg.names, attach), Listing(cfg, AliasOnly(cfg.names, attach)))
    case None => None
    case Some(entries) => Answer(cfg.casing, mode, Snapshot(entries, None, false), false, version, ifNoneMatch)
  }

  // ---- The direct builder ------------------------------------------------------

  /** One loop of the builder: append a record per kept element. */
  method BuildRecords<T>(keep: T -> bool, build: T -> Option<Row>, xs: seq<T>) returns (r: Option<seq<Row>>)
    ensures r == BuildWhere(keep, build, xs)
  {
    var rows: seq<Row> := [];
    for i := 0 to |xs|
      invariant BuildWhere(keep, build, xs[..i]) == Some(rows)
    {
      BuildOneMore(keep, build, xs, i);
      if !keep(xs[i]) {
        continue;
      }
      match build(xs[i]) {
        case None =>
          BuildFails(keep, build, xs, i + 1);
          return None;
        case Some(row) => rows := rows + [row];
      }
    }
    assert xs[..|xs|] == xs;
    return Some(rows);
  }

  lemma BuildOneMore<T>(keep: T -> bool, build: T -> Option<Row>, xs: seq<T>, i: nat)
    requires i < |xs|
    ensures BuildWhere(keep, build, xs[..i + 1]) ==
            match BuildWhere(keep, build, xs[..i])
            case None => None
            case Some(rows) => if !keep(xs[i]) then Some(rows) else if build(xs[i]).None? then None
              else Some(rows + [build(xs[i]).value])
  {
    assert xs[..i + 1][..i] == xs[..i];
  }

  lemma {:induction false} BuildFails<T>(keep: T -> bool, build: T -> Option<Row>, xs: seq<T>, i: nat)
    requires i <= |xs| && BuildWhere(keep, build, xs[..i]).None?
    ensures BuildWhere(keep, build, xs).None?
  {
    if i < |xs| {
      assert xs[..|xs| - 1][..i] == xs[..i];
      BuildFails(keep, build, xs[..|xs| - 1], i);
    } else {
      assert xs[..i] == xs;
    }
  }

  /** `enabled` decides whether a loop runs at all. */
  method BuildEnabled<T>(enabled: bool, keep: T -> bool, build: T -> Option<Row>,
                         xs: seq<T>) returns (r: Option<seq<Row>>)
    ensures r == Unless(enabled, BuildWhere(keep, build, xs))
  {
    r := Some([]);
    if enabled {
      r := BuildRecords(keep, build, xs);
    }
  }

  function Appended(records: seq<seq<Row>>, e: Entry): seq<seq<Row>>
    requires |records| == KINDS && |e.lists| == SLOTS
  {
    seq(KINDS, k requires 0 <= k < KINDS => records[k] + EntryRows(e, k))
  }

  predicate Slots(cfg: Config, catalogName: string, info: Info, from: nat, lists: seq<Option<seq<Row>>>) {
    forall i :: 0 <= i < |lists| ==> lists[i] == SlotItems(cfg, catalogName, info, from + i)
  }

  /** Function records of one schema: the loop over the three kinds. */
  method AddFunctions(cfg: Config, catalogName: string, info: Info) returns (lists: seq<Option<seq<Row>>>)
    requires PathKey(cfg.casing, info.path) in cfg.schemas
    ensures |lists| == 3 && Slots(cfg, catalogName, info, 2, lists)
  {
    var build, functions := cfg.build.functionRow, cfg.schemas[PathKey(cfg.casing, info.path)].functions;
    var scalar := BuildEnabled(Enabled(info, "scalar_function"), Keeps("SCALAR", catalogName), build, functions);
    var aggregate := BuildEnabled(Enabled(info, "aggregate_function"), Keeps("AGGREGATE", catalogName), build,
      functions);
    var table := BuildEnabled(Enabled(info, "table_function"), Keeps("TABLE", catalogName), build, functions);
    lists := [scalar, aggregate, table];
  }

  /** Macro records of one schema: scalar macros, then table macros. */
  method AddMacros(cfg: Config, catalogName: string, info: Info) returns (lists: seq<Option<seq<Row>>>)
    requires PathKey(cfg.casing, info.path) in cfg.schemas
    ensures |lists| == 2 && Slots(cfg, catalogName, info, 5, lists)
  {
    var build, macros := MacroBuilder(cfg, info.path), cfg.schemas[PathKey(cfg.casing, info.path)].macros;
    var scalar := BuildEnabled(Enabled(info, "macro"), KeepsMacro("SCALAR"), build, macros);
    var table := BuildEnabled(Enabled(info, "macro"), KeepsMacro("TABLE"), build, macros);
    lists := [scalar, table];
  }

  method AddTablesAndViews(cfg: Config, catalogName: string, info: Info) returns (lists: seq<Option<seq<Row>>>)
    requires PathKey(cfg.casing, info.path) in cfg.schemas
    ensures |lists| == 2 && Slots(cfg, catalogName, info, 0, lists)
  {
    var si := cfg.schemas[PathKey(cfg.casing, info.path)];
    var tables := BuildEnabled(Enabled(info, "table"), KeepsAll(), TableBuilder(cfg, info.path), si.tables);
    var views := BuildEnabled(Enabled(info, "view"), KeepsAll(), ViewBuilder(cfg, info.path), si.views);
    lists := [tables, views];
  }

  /** The eight lists of one schema, built directly. */
  method AddObjects(cfg: Config, catalogName: string, info: Info) returns (lists: seq<Option<seq<Row>>>)
    ensures |lists| == SLOTS && Slots(cfg, catalogName, info, 0, lists)
  {
    if PathKey(cfg.casing, info.path) !in cfg.schemas {
      return seq(SLOTS, i => Some([]));
    }
    var data := AddTablesAndViews(cfg, catalogName, info);
    var functions := AddFunctions(cfg, catalogName, info);
    var macros := AddMacros(cfg, catalogName, info);
    lists := data + functions + macros + [Some([])];
    forall i | 0 <= i < SLOTS
      ensures lists[i] == SlotItems(cfg, catalogName, info, i)
    {
      if 2 <= i < 5 {
        assert lists[i] == functions[i - 2];
      } else if 5 <= i < 7 {
        assert lists[i] == macros[i - 5];
      }
    }
  }

  method AllValues(lists: seq<Option<seq<Row>>>) returns (r: Option<seq<seq<Row>>>)
    ensures r.Some? <==> forall i :: 0 <= i < |lists| ==> lists[i].Some?
    ensures r.Some? ==> |r.value| == |lists| && forall i :: 0 <= i < |lists| ==> lists[i] == Some(r.value[i])
  {
    var out: seq<seq<Row>> := [];
    for i := 0 to |lists|
      invariant |out| == i
      invariant forall j :: 0 <= j < i ==> lists[j] == Some(out[j])
    {
      if lists[i].None? {
        return None;
      }
      out := out + [lists[i].value];
    }
    return Some(out);
  }

  lemma BuiltEntry(cfg: Config, catalogName: string, info: Info, row: Row, built: seq<Option<seq<Row>>>)
    requires |built| == SLOTS && Slots(cfg, catalogName, info, 0, built) && cfg.build.schemaRow(info) == Some(row)
    ensures ComposeEntry(cfg, catalogName, info).Some? <==> forall i :: 0 <= i < SLOTS ==> built[i].Some?
    ensures var e := ComposeEntry(cfg, catalogName, info);
            e.Some? ==> e.value.path == info.path && e.value.schema == row && |e.value.lists| == SLOTS &&
                        forall i :: 0 <= i < SLOTS ==> built[i] == Some(e.value.lists[i])
  {
    assert forall i :: 0 <= i < SLOTS ==> built[i] == SlotItems(cfg, catalogName, info, 0 + i);
    if forall i :: 0 <= i < SLOTS ==> built[i].Some? {
      forall slot | 0 <= slot < SLOTS
        ensures SlotItems(cfg, catalogName, info, slot).Some?
      {
        assert built[slot].Some?;
      }
      assert AllBuilt(cfg, catalogName, info);
    }
  }

  /** One round of the builder's outer loop. */
  method AddSchema(cfg: Config, catalogName: string, info: Info,
                   records: seq<seq<Row>>) returns (r: Option<seq<seq<Row>>>)
    requires |records| == KINDS
    ensures r == match ComposeEntry(cfg, catalogName, info) case None => None case Some(e) => Some(Appended(records, e))
  {
    var row := cfg.build.schemaRow(info);
    if row.None? {
      return None;
    }
    var built := AddObjects(cfg, catalogName, info);
    BuiltEntry(cfg, catalogName, info, row.value, built);
    var all := AllValues(built);
    if all.None? {
      return None;
    }
    var lists := all.value;
    ghost var e := ComposeEntry(cfg, catalogName, info).value;
    assert forall i :: 0 <= i < SLOTS ==> Some(e.lists[i]) == built[i] == Some(lists[i]);
    r := Some(AppendLists(records, row.value, lists));
    AppendListsIsAppended(records, e, lists);
  }

  function AppendLists(records: seq<seq<Row>>, row: Row, lists: seq<seq<Row>>): seq<seq<Row>>
    requires |records| == KINDS && |lists| == SLOTS
  {
    [ records[0] + [row],
      records[1] + lists[0],
      records[2] + lists[1],
      records[3] + (lists[2] + lists[3] + lists[4]),
      records[4] + (lists[5] + lists[6]),
      records[5] + lists[7]]
  }

  lemma AppendListsIsAppended(records: seq<seq<Row>>, e: Entry, lists: seq<seq<Row>>)
    requires |records| == KINDS && |lists| == |e.lists| == SLOTS
    requires forall i :: 0 <= i < SLOTS ==> e.lists[i] == lists[i]
    ensures AppendLists(records, e.schema, lists) == Appended(records, e)
  {
    assert lists == e.lists;
  }

  /** Both loops together: the direct records are the composed entries, kind by
      kind. */
  method CollectRecords(cfg: Config, catalogName: string, infos: seq<Info>) returns (r: Option<seq<seq<Row>>>)
    ensures r == match ComposeAll(cfg, catalogName,
      infos) case None => None case Some(entries) => Some(AllKinds(entries))
  {
    var none: seq<seq<Row>> := seq(KINDS, k => []);
    assert none == AllKinds([]);
    r := Some(none);
    for i := 0 to |infos|
      invariant r.Some? ==> |r.value| == KINDS
      invariant r == match ComposeAll(cfg, catalogName,
        infos[..i]) case None => None case Some(entries) => Some(AllKinds(entries))
    {
      assert infos[..i + 1][..i] == infos[..i];
      if r.Some? {
        ghost var before := ComposeAll(cfg, catalogName, infos[..i]).value;
        var records := r.value;
        r := AddSchema(cfg, catalogName, infos[i], records);
        if r.Some? {
          AppendedIsAllKinds(before, ComposeEntry(cfg, catalogName, infos[i]).value);
        }
      }
    }
    assert infos[..|infos|] == infos;
  }

  lemma AppendedIsAllKinds(entries: seq<Entry>, e: Entry)
    requires Shaped(entries) && |e.lists| == SLOTS
    ensures Shaped(entries + [e])
    ensures Appended(AllKinds(entries), e) == AllKinds(entries + [e])
  {
    assert (entries + [e])[..|entries|] == entries;
  }

  // ---- Direct equals composed ----------------------------------------------------

  /** A schema row names the path it was built for. */
  ghost predicate RowsNamePaths(build: Builders) {
    forall info :: build.schemaRow(info).Some? ==> build.schemaRow(info).value.path == info.path
  }

  lemma {:induction false} ComposedPaths(cfg: Config, catalogName: string, infos: seq<Info>)
    requires RowsNamePaths(cfg.build) && ComposeAll(cfg, catalogName, infos).Some?
    ensures var entries := ComposeAll(cfg, catalogName, infos).value;
            |entries| == |infos| &&
            forall i :: 0 <= i < |infos| ==> entries[i].path == entries[i].schema.path == infos[i].path
  {
    if infos != [] {
      ComposedPaths(cfg, catalogName, infos[..|infos| - 1]);
    }
  }

  function InfoKey(c: Casing): Info -> string {
    (info: Info) => PathKey(c, info.path)
  }

  lemma {:induction false} EnumerateIsDistinct(cfg: Config, names: set<string>)
    requires names <= cfg.schemas.Keys && Registered(cfg)
    ensures Distinct(InfoKey(cfg.casing), Enumerate(cfg, names))
    decreases |names|
  {
    if names != {} {
      var first := Pick(names);
      var rest := Enumerate(cfg, names - {first});
      EnumerateIsDistinct(cfg, names - {first});
      forall i | 0 <= i < |rest|
        ensures PathKey(cfg.casing, rest[i].path) != first
      {
        EnumeratedIsNamed(cfg, names - {first}, rest[i]);
      }
    }
  }

  /** Listed schemas come in order and no two share a key. */
  lemma ListingShape(cfg: Config, aliasOnly: bool)
    requires Registered(cfg)
    ensures Ordered(InfoOrder(cfg.casing), Listing(cfg, aliasOnly))
    ensures Distinct(InfoKey(cfg.casing), Listing(cfg, aliasOnly))
  {
    var all := Enumerate(cfg, Visible(cfg, aliasOnly));
    InfoOrderIsWeak(cfg.casing);
    SortOrders(InfoOrder(cfg.casing), all);
    EnumerateIsDistinct(cfg, Visible(cfg, aliasOnly));
    SortKeepsDistinct(InfoOrder(cfg.casing), InfoKey(cfg.casing), all);
  }

  /** Parents found by the decoder are found by the path check. */
  lemma KnownHasKey(c: Casing, entries: seq<Entry>, n: nat, path: Path)
    requires n <= |entries| && Known(c, SchemaRows(entries)[..n], KeyOf(c, path))
    requires forall i :: 0 <= i < |entries| ==> entries[i].path == entries[i].schema.path
    ensures HasKey(c, entries, PathKey(c, path))
  {
    var j :| 0 <= j < n && KeyOf(c, SchemaRows(entries)[..n][j].path) == KeyOf(c, path);
    assert PathKey(c, entries[j].path) == PathKey(c, path);
  }

  /** Entries the decoder accepts pass the path check. */
  lemma DecodedPathsAreOk(c: Casing, entries: seq<Entry>, verifyItems: bool)
    requires SchemasOk(c, SchemaRows(entries))
    requires forall i :: 0 <= i < |entries| ==> entries[i].path == entries[i].schema.path
    requires forall i, j :: 0 <= i < j < |entries| ==> PathKey(c, entries[i].path) != PathKey(c, entries[j].path)
    ensures PathsOk(c, entries, verifyItems)
  {
    var rows := SchemaRows(entries);
    forall i | 0 <= i < |entries|
      ensures EntryPathOk(c, entries, i, verifyItems) && ParentOk(c, entries, i)
    {
      assert SchemaOk(c, rows[..i], rows[i]);
      var path := entries[i].path;
      if |path| > 1 {
        KnownHasKey(c, entries, i, path[..|path| - 1]);
      }
    }
  }

  lemma DepthsAreOrdered(cfg: Config, infos: seq<Info>, entries: seq<Entry>)
    requires Ordered(InfoOrder(cfg.casing), infos) && |entries| == |infos|
    requires forall i :: 0 <= i < |infos| ==> entries[i].path == infos[i].path
    ensures Ordered(DepthOrder(), entries)
  {
    forall i, j | 0 <= i < j < |entries|
      ensures !DepthOrder()(entries[j], entries[i])
    {
      assert !InfoOrder(cfg.casing)(infos[j], infos[i]);
    }
  }

  lemma EntriesAreDistinct(c: Casing, infos: seq<Info>, entries: seq<Entry>)
    requires Distinct(InfoKey(c), infos) && |entries| == |infos|
    requires forall i :: 0 <= i < |infos| ==> entries[i].path == infos[i].path
    ensures forall i, j :: 0 <= i < j < |entries| ==> PathKey(c, entries[i].path) != PathKey(c, entries[j].path)
  {
    forall i, j | 0 <= i < j < |entries|
      ensures PathKey(c, entries[i].path) != PathKey(c, entries[j].path)
    {
      assert InfoKey(c)(infos[i]) != InfoKey(c)(infos[j]);
    }
  }

  /** For the composed entries, the path check and the sort change nothing: the
      answer is decided by decoding alone. */
  lemma ComposedIsDecoded(cfg: Config, mode: EtagMode, attach: string, version: int,
                          ifNoneMatch: Option<string>, entries: seq<Entry>)
    requires Registered(cfg) && RowsNamePaths(cfg.build)
    requires ComposeAll(cfg, CatalogOf(cfg.names, attach), Listing(cfg, AliasOnly(cfg.names, attach))) == Some(entries)
    ensures ComposedAnswer(cfg, mode, attach, version, ifNoneMatch) ==
            if Decode(cfg.casing, AllKinds(entries)).None? then None
            else Some(Finish(mode, version, None, ifNoneMatch, StreamsOf(AllKinds(entries))))
  {
    var c := cfg.casing;
    var infos := Listing(cfg, AliasOnly(cfg.names, attach));
    ListingShape(cfg, AliasOnly(cfg.names, attach));
    ComposedPaths(cfg, CatalogOf(cfg.names, attach), infos);
    DepthsAreOrdered(cfg, infos, entries);
    OrderedIsKept(DepthOrder(), entries);
    if Decode(c, AllKinds(entries)).Some? {
      DecodeExact(c, AllKinds(entries));
      SchemaStreamIsSchemaRows(entries);
      EntriesAreDistinct(c, infos, entries);
      DecodedPathsAreOk(c, entries, false);
    }
  }

  /** The six fields, cut by offset. */
  method EncodeRecords(records: seq<seq<Row>>) returns (streams: seq<Stream>)
    ensures streams == StreamsOf(records)
  {
    streams := [];
    for k := 0 to |records|
      invariant streams == StreamsOf(records[..k])
    {
      var data := EncodeCatalogRecords(records[k]);
      ServedExact(records[k], data);
      streams := streams + [data];
    }
    assert records[..|records|] == records;
  }

  lemma StreamsKeepRows(rows: seq<seq<Row>>)
    ensures RowsOf(StreamsOf(rows)) == rows
  {
    forall k | 0 <= k < |rows|
      ensures Served(rows[k], StreamsOf(rows)[k])
    {
      ServedExact(rows[k], StreamOf(rows[k]));
    }
    ServedRows(rows, StreamsOf(rows));
  }

  /** vgi/catalog_collection_direct.go, `directCatalogContents`: the answer,
      errors included, is the composed one. */
  method DirectCatalogContents(cfg: Config, mode: EtagMode, attach: string, version: int, ifNoneMatch: Option<string>)
    returns (r: Option<Response>)
    requires Registered(cfg) && RowsNamePaths(cfg.build)
    ensures r == ComposedAnswer(cfg, mode, attach, version, ifNoneMatch)
  {
    var infos := ListSchemaInfos(cfg, attach);
    var catalogName := CatalogOf(cfg.names, attach);
    var records := CollectRecords(cfg, catalogName, infos);
    if records.None? {
      return None;
    }
    ghost var entries := ComposeAll(cfg, catalogName, infos).value;
    ComposedIsDecoded(cfg, mode, attach, version, ifNoneMatch, entries);
    var streams := EncodeRecords(records.value);
    StreamsKeepRows(records.value);
    var out := Response(version, None, false, streams);
    var decoded := DecodeCatalogStreams(cfg.casing, out);
    if decoded.None? {
      return None;
    }
    if mode.contentHash {
      var etag := mode.digest(version, streams);
      out := out.(etag := Some(etag));
      if ifNoneMatch == Some(etag) {
        return Some(NotModifiedResponse(version, etag));
      }
    }
    return Some(out);
  }
}
