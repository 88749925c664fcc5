/** What a client reads out of the answer of a static catalog, in terms of what was registered
    (vgi/catalog_contents.go, vgi/catalog_collection_direct.go, vgi/catalog.go): which schemas, and in
    each of their lists which objects, in which order; and exactly when there is an answer. */
module CatalogServed {
  import opened Wrappers
  import opened Strings
  import opened CatalogStreams
  import opened CatalogCodec
  import opened StableSort
  import opened CatalogListing
  import opened CatalogContents

  // ---- Lists of built rows -----------------------------------------------------------

  ghost predicate Increasing(picks: seq<nat>) {
    forall a, b :: 0 <= a < b < |picks| ==> picks[a] < picks[b]
  }

  /** The indices of the wanted elements. */
  ghost predicate Picks<T>(xs: seq<T>, wanted: T -> bool, picks: seq<nat>) {
    forall i: nat :: i in picks <==> Wants(xs, wanted, i)
  }

  predicate Wants<T>(xs: seq<T>, wanted: T -> bool, i: nat) {
    i < |xs| && wanted(xs[i])
  }

  ghost predicate BuiltAt<T>(rows: seq<Row>, xs: seq<T>, build: T -> Option<Row>, picks: seq<nat>) {
    |rows| == |picks| && forall a :: 0 <= a < |picks| ==> picks[a] < |xs| && build(xs[picks[a]]) == Some(rows[a])
  }

  /** The rows are those built from exactly the wanted elements, in the order of the elements. */
  ghost predicate BuiltFrom<T>(rows: seq<Row>, xs: seq<T>, wanted: T -> bool, build: T -> Option<Row>) {
    exists picks :: Increasing(picks) && Picks(xs, wanted, picks) && BuiltAt(rows, xs, build, picks)
  }

  lemma BuiltSame<T>(rows: seq<Row>, xs: seq<T>, p: T -> bool, q: T -> bool, build: T -> Option<Row>)
    requires forall i :: 0 <= i < |xs| ==> p(xs[i]) == q(xs[i])
    ensures BuiltFrom(rows, xs, p, build) ==> BuiltFrom(rows, xs, q, build)
  {
    if BuiltFrom(rows, xs, p, build) {
      var picks :| Increasing(picks) && Picks(xs, p, picks) && BuiltAt(rows, xs, build, picks);
      forall i: nat ensures i in picks <==> Wants(xs, q, i) {
        assert i in picks <==> Wants(xs, p, i);
      }
      assert Picks(xs, q, picks);
    }
  }

  lemma PickMore<T>(xs: seq<T>, wanted: T -> bool, build: T -> Option<Row>, rows: seq<Row>, row: Row, picks: seq<nat>)
    requires xs != [] && wanted(xs[|xs| - 1]) && build(xs[|xs| - 1]) == Some(row)
    requires var before := xs[..|xs| - 1];
      Increasing(picks) && Picks(before, wanted, picks) && BuiltAt(rows, before, build, picks)
    ensures var more := picks + [|xs| - 1];
      Increasing(more) && Picks(xs, wanted, more) && BuiltAt(rows + [row], xs, build, more)
  {
    var n := |xs| - 1;
    var more := picks + [n];
    forall i: nat ensures i in more <==> Wants(xs, wanted, i) {
      assert i in picks <==> Wants(xs[..n], wanted, i);
    }
    forall a, b | 0 <= a < b < |more| ensures more[a] < more[b] {
      if b == |picks| { assert picks[a] in picks; }
    }
  }

  lemma PickSame<T>(xs: seq<T>, wanted: T -> bool, build: T -> Option<Row>, rows: seq<Row>, picks: seq<nat>)
    requires xs != [] && !wanted(xs[|xs| - 1])
    requires var before := xs[..|xs| - 1]; Picks(before, wanted, picks) && BuiltAt(rows, before, build, picks)
    ensures Picks(xs, wanted, picks) && BuiltAt(rows, xs, build, picks)
  {
    var n := |xs| - 1;
    forall i: nat ensures i in picks <==> Wants(xs, wanted, i) {
      assert i in picks <==> Wants(xs[..n], wanted, i);
    }
    forall a | 0 <= a < |picks| ensures picks[a] < |xs| && build(xs[picks[a]]) == Some(rows[a]) {
      assert xs[..n][picks[a]] == xs[picks[a]];
    }
  }

  /** Every wanted element builds. */
  ghost predicate AllBuild<T>(xs: seq<T>, wanted: T -> bool, build: T -> Option<Row>) {
    forall i :: 0 <= i < |xs| && wanted(xs[i]) ==> build(xs[i]).Some?
  }

  lemma {:induction false} BuiltExactly<T>(wanted: T -> bool, build: T -> Option<Row>, xs: seq<T>)
    ensures BuildWhere(wanted, build, xs).Some? <==> AllBuild(xs, wanted, build)
    ensures BuildWhere(wanted, build, xs).Some? ==> BuiltFrom(BuildWhere(wanted, build, xs).value, xs, wanted, build)
  {
    if xs == [] {
      var none: seq<nat> := [];
      assert Increasing(none) && Picks(xs, wanted, none) && BuiltAt([], xs, build, none);
    } else {
      var n := |xs| - 1;
      BuiltExactly(wanted, build, xs[..n]);
      BuildsOneMore(wanted, build, xs);
      if BuildWhere(wanted, build, xs).Some? {
        var rows := BuildWhere(wanted, build, xs[..n]).value;
        var picks :| Increasing(picks) && Picks(xs[..n], wanted, picks) && BuiltAt(rows, xs[..n], build, picks);
        if wanted(xs[n]) {
          PickMore(xs, wanted, build, rows, build(xs[n]).value, picks);
        } else {
          PickSame(xs, wanted, build, rows, picks);
        }
      }
    }
  }

  lemma BuildsOneMore<T>(wanted: T -> bool, build: T -> Option<Row>, xs: seq<T>)
    requires xs != []
    ensures var n := |xs| - 1;
      AllBuild(xs, wanted, build) <==> AllBuild(xs[..n], wanted, build) && (wanted(xs[n]) ==> build(xs[n]).Some?)
  {
    var n := |xs| - 1;
    assert forall i :: 0 <= i < n ==> xs[..n][i] == xs[i];
    if AllBuild(xs[..n], wanted, build) && (wanted(xs[n]) ==> build(xs[n]).Some?) {
      forall i | 0 <= i < |xs| && wanted(xs[i]) ensures build(xs[i]).Some? {
        if i < n { assert xs[..n][i] == xs[i]; }
      }
    }
  }

  // ---- What is registered ------------------------------------------------------------

  /** The schema says that it has none of this kind. */
  predicate SaysNone(info: Info, kind: string) {
    kind in info.counts && info.counts[kind] == 0
  }

  predicate OwnedBy(catalog: string, f: Function) {
    !f.unlisted && (catalog == "" || f.home == catalog)
  }

  function ScalarFunctions(catalog: string): Function -> bool {
    (f: Function) => f.kind == "SCALAR" && OwnedBy(catalog, f)
  }

  function AggregateFunctions(catalog: string): Function -> bool {
    (f: Function) => f.kind == "AGGREGATE" && OwnedBy(catalog, f)
  }

  /** Buffering table functions are table functions. */
  function TableFunctions(catalog: string): Function -> bool {
    (f: Function) => (f.kind == "TABLE" || f.kind == "TABLE_BUFFERING") && OwnedBy(catalog, f)
  }

  function ScalarMacros(): Macro -> bool {
    (m: Macro) => m.kind == "SCALAR" || m.kind == "scalar"
  }

  function TableMacros(): Macro -> bool {
    (m: Macro) => m.kind == "TABLE" || m.kind == "table"
  }

  function Every(): string -> bool {
    (name: string) => true
  }

  /** A list holds the rows of its objects, or is left empty because the schema says it has none. */
  ghost predicate Holds<T>(none: bool, rows: seq<Row>, xs: seq<T>, wanted: T -> bool, build: T -> Option<Row>) {
    if none then rows == [] else BuiltFrom(rows, xs, wanted, build)
  }

  ghost predicate CanHold<T>(none: bool, xs: seq<T>, wanted: T -> bool, build: T -> Option<Row>) {
    none || AllBuild(xs, wanted, build)
  }

  function TableRows(cfg: Config, path: Path): string -> Option<Row> {
    (t: string) => cfg.build.tableRow(path, t)
  }

  function ViewRows(cfg: Config, path: Path): string -> Option<Row> {
    (v: string) => cfg.build.viewRow(path, v)
  }

  function MacroRows(cfg: Config, path: Path): Macro -> Option<Row> {
    (m: Macro) => cfg.build.macroRow(path, m)
  }

  /** What the list `slot` of a schema holds, in the order of the wire: tables, views, scalar, aggregate
      and table functions, scalar and table macros, indexes, of which there are none. */
  ghost predicate ListServed(cfg: Config, catalog: string, s: Schema, slot: nat, rows: seq<Row>) {
    var info, path, fn := s.info, s.info.path, cfg.build.functionRow;
    if slot == 0 then Holds(SaysNone(info, "table"), rows, s.tables, Every(), TableRows(cfg, path))
    else if slot == 1 then Holds(SaysNone(info, "view"), rows, s.views, Every(), ViewRows(cfg, path))
    else if slot == 2 then Holds(SaysNone(info, "scalar_function"), rows, s.functions, ScalarFunctions(catalog), fn)
    else if slot == 3 then
      Holds(SaysNone(info, "aggregate_function"), rows, s.functions, AggregateFunctions(catalog), fn)
    else if slot == 4 then Holds(SaysNone(info, "table_function"), rows, s.functions, TableFunctions(catalog), fn)
    else if slot == 5 then Holds(SaysNone(info, "macro"), rows, s.macros, ScalarMacros(), MacroRows(cfg, path))
    else if slot == 6 then Holds(SaysNone(info, "macro"), rows, s.macros, TableMacros(), MacroRows(cfg, path))
    else rows == []
  }

  ghost predicate ListsServed(cfg: Config, catalog: string, s: Schema, lists: seq<seq<Row>>) {
    |lists| == 8 && forall slot :: 0 <= slot < 8 ==> ListServed(cfg, catalog, s, slot, lists[slot])
  }

  /** Every record the list needs can be built. */
  ghost predicate ListBuilds(cfg: Config, catalog: string, s: Schema, slot: nat) {
    var info, path, fn := s.info, s.info.path, cfg.build.functionRow;
    if slot == 0 then CanHold(SaysNone(info, "table"), s.tables, Every(), TableRows(cfg, path))
    else if slot == 1 then CanHold(SaysNone(info, "view"), s.views, Every(), ViewRows(cfg, path))
    else if slot == 2 then CanHold(SaysNone(info, "scalar_function"), s.functions, ScalarFunctions(catalog), fn)
    else if slot == 3 then CanHold(SaysNone(info, "aggregate_function"), s.functions, AggregateFunctions(catalog), fn)
    else if slot == 4 then CanHold(SaysNone(info, "table_function"), s.functions, TableFunctions(catalog), fn)
    else if slot == 5 then CanHold(SaysNone(info, "macro"), s.macros, ScalarMacros(), MacroRows(cfg, path))
    else if slot == 6 then CanHold(SaysNone(info, "macro"), s.macros, TableMacros(), MacroRows(cfg, path))
    else true
  }

  ghost predicate CanServe(cfg: Config, catalog: string, s: Schema) {
    cfg.build.schemaRow(s.info).Some? && forall slot :: 0 <= slot < 8 ==> ListBuilds(cfg, catalog, s, slot)
  }

  lemma ListIsServed<T>(enabled: bool, keep: T -> bool, build: T -> Option<Row>, xs: seq<T>, wanted: T -> bool)
    requires forall i :: 0 <= i < |xs| ==> keep(xs[i]) == wanted(xs[i])
    ensures var items := Unless(enabled, BuildWhere(keep, build, xs));
      && (items.Some? <==> CanHold(!enabled, xs, wanted, build))
      && (items.Some? ==> Holds(!enabled, items.value, xs, wanted, build))
  {
    BuiltExactly(keep, build, xs);
    if enabled && BuildWhere(keep, build, xs).Some? {
      BuiltSame(BuildWhere(keep, build, xs).value, xs, keep, wanted, build);
    }
  }

  /** The schema is registered under its own key. */
  predicate Files(cfg: Config, s: Schema) {
    var key := PathKey(cfg.casing, s.info.path);
    key in cfg.schemas && cfg.schemas[key] == s
  }

  /** A list is composed as it is to be served. */
  ghost predicate Composed(cfg: Config, catalog: string, s: Schema, slot: nat) {
    var items := SlotItems(cfg, catalog, s.info, slot);
    && (items.Some? <==> ListBuilds(cfg, catalog, s, slot))
    && (items.Some? ==> ListServed(cfg, catalog, s, slot, items.value))
  }

  lemma DataIsServed(cfg: Config, catalog: string, s: Schema)
    requires Files(cfg, s)
    ensures Composed(cfg, catalog, s, 0) && Composed(cfg, catalog, s, 1)
  {
    ListIsServed(Enabled(s.info, "table"), KeepsAll(), TableBuilder(cfg, s.info.path), s.tables, Every());
    ListIsServed(Enabled(s.info, "view"), KeepsAll(), ViewBuilder(cfg, s.info.path), s.views, Every());
    assert TableBuilder(cfg, s.info.path) == TableRows(cfg, s.info.path);
    assert ViewBuilder(cfg, s.info.path) == ViewRows(cfg, s.info.path);
  }

  lemma ScalarsAreServed(cfg: Config, catalog: string, s: Schema)
    requires Files(cfg, s)
    ensures Composed(cfg, catalog, s, 2)
  {
    ListIsServed(Enabled(s.info, "scalar_function"), Keeps("SCALAR", catalog), cfg.build.functionRow, s.functions,
      ScalarFunctions(catalog));
  }

  lemma AggregatesAreServed(cfg: Config, catalog: string, s: Schema)
    requires Files(cfg, s)
    ensures Composed(cfg, catalog, s, 3)
  {
    ListIsServed(Enabled(s.info, "aggregate_function"), Keeps("AGGREGATE", catalog), cfg.build.functionRow,
      s.functions, AggregateFunctions(catalog));
  }

  lemma TableFunctionsAreServed(cfg: Config, catalog: string, s: Schema)
    requires Files(cfg, s)
    ensures Composed(cfg, catalog, s, 4)
  {
    ListIsServed(Enabled(s.info, "table_function"), Keeps("TABLE", catalog), cfg.build.functionRow, s.functions,
      TableFunctions(catalog));
  }

  lemma ScalarMacrosAreServed(cfg: Config, catalog: string, s: Schema)
    requires Files(cfg, s)
    ensures Composed(cfg, catalog, s, 5)
  {
    assert MacroBuilder(cfg, s.info.path) == MacroRows(cfg, s.info.path);
    ListIsServed(Enabled(s.info, "macro"), KeepsMacro("SCALAR"), MacroRows(cfg, s.info.path), s.macros, ScalarMacros());
  }

  lemma TableMacrosAreServed(cfg: Config, catalog: string, s: Schema)
    requires Files(cfg, s)
    ensures Composed(cfg, catalog, s, 6)
  {
    assert MacroBuilder(cfg, s.info.path) == MacroRows(cfg, s.info.path);
    ListIsServed(Enabled(s.info, "macro"), KeepsMacro("TABLE"), MacroRows(cfg, s.info.path), s.macros, TableMacros());
  }

  // ---- One schema --------------------------------------------------------------------

  /** The entry of a schema: its path, its row and its lists. */
  ghost predicate EntryServes(cfg: Config, catalog: string, s: Schema, e: Entry) {
    && e.path == s.info.path && cfg.build.schemaRow(s.info) == Some(e.schema)
    && ListsServed(cfg, catalog, s, e.lists)
  }

  lemma ListIsComposed(cfg: Config, catalog: string, s: Schema, slot: nat)
    requires Files(cfg, s) && slot < 8
    ensures Composed(cfg, catalog, s, slot)
  {
    if slot < 2 { DataIsServed(cfg, catalog, s); }
    else if slot == 2 { ScalarsAreServed(cfg, catalog, s); }
    else if slot == 3 { AggregatesAreServed(cfg, catalog, s); }
    else if slot == 4 { TableFunctionsAreServed(cfg, catalog, s); }
    else if slot == 5 { ScalarMacrosAreServed(cfg, catalog, s); }
    else if slot == 6 { TableMacrosAreServed(cfg, catalog, s); }
  }

  lemma ComposedServes(cfg: Config, catalog: string, s: Schema)
    requires Files(cfg, s)
    ensures ComposeEntry(cfg, catalog, s.info).Some? <==> CanServe(cfg, catalog, s)
    ensures ComposeEntry(cfg, catalog, s.info).Some? ==>
              EntryServes(cfg, catalog, s, ComposeEntry(cfg, catalog, s.info).value)
  {
    forall slot | 0 <= slot < 8 ensures Composed(cfg, catalog, s, slot) { ListIsComposed(cfg, catalog, s, slot); }
    EntryFromLists(cfg, catalog, s);
  }

  lemma EntryFromLists(cfg: Config, catalog: string, s: Schema)
    requires forall slot :: 0 <= slot < 8 ==> Composed(cfg, catalog, s, slot)
    ensures ComposeEntry(cfg, catalog, s.info).Some? <==> CanServe(cfg, catalog, s)
    ensures ComposeEntry(cfg, catalog, s.info).Some? ==>
              EntryServes(cfg, catalog, s, ComposeEntry(cfg, catalog, s.info).value)
  {
    if CanServe(cfg, catalog, s) {
      forall slot | 0 <= slot < SLOTS ensures SlotItems(cfg, catalog, s.info, slot).Some? {
        assert Composed(cfg, catalog, s, slot) && ListBuilds(cfg, catalog, s, slot);
      }
    }
    if AllBuilt(cfg, catalog, s.info) {
      forall slot | 0 <= slot < 8
        ensures ListBuilds(cfg, catalog, s, slot)
        ensures ListServed(cfg, catalog, s, slot, SlotItems(cfg, catalog, s.info, slot).value)
      {
        assert Composed(cfg, catalog, s, slot) && SlotItems(cfg, catalog, s.info, slot).Some?;
      }
    }
  }

  // ---- Rows name what they were built for -------------------------------------------------

  /** The builder's row names the schema, up to case. */
  predicate NamesPath(cfg: Config, path: Path, row: Option<Row>) {
    row.Some? ==> KeyOf(cfg.casing, row.value.path) == KeyOf(cfg.casing, path)
  }

  predicate NamesKind(cfg: Config, kind: string, row: Option<Row>) {
    row.Some? ==> cfg.casing.upper(row.value.subtype) == kind
  }

  predicate FunctionNamed(cfg: Config, path: Path, f: Function) {
    NamesPath(cfg, path, cfg.build.functionRow(f)) && NamesKind(cfg, f.kind, cfg.build.functionRow(f))
  }

  predicate MacroNamed(cfg: Config, path: Path, m: Macro) {
    var row := cfg.build.macroRow(path, m);
    && NamesPath(cfg, path, row)
    && (m.kind == "SCALAR" || m.kind == "scalar" ==> NamesKind(cfg, "SCALAR", row))
    && (m.kind == "TABLE" || m.kind == "table" ==> NamesKind(cfg, "TABLE", row))
  }

  /** The record builders write the schema and the kind of the object they are given. */
  ghost predicate RowsNameObjects(cfg: Config) {
    && (forall path, t :: NamesPath(cfg, path, cfg.build.tableRow(path, t)))
    && (forall path, v :: NamesPath(cfg, path, cfg.build.viewRow(path, v)))
    && (forall key, i :: key in cfg.schemas && 0 <= i < |cfg.schemas[key].functions| ==>
          FunctionNamed(cfg, cfg.schemas[key].info.path, cfg.schemas[key].functions[i]))
    && (forall path, m :: MacroNamed(cfg, path, m))
  }

  /** Every row of a list of built rows comes from a wanted element. */
  lemma BuiltComesFrom<T>(rows: seq<Row>, xs: seq<T>, wanted: T -> bool, build: T -> Option<Row>, a: nat)
    returns (i: nat)
    requires BuiltFrom(rows, xs, wanted, build) && a < |rows|
    ensures i < |xs| && wanted(xs[i]) && build(xs[i]) == Some(rows[a])
  {
    var picks :| Increasing(picks) && Picks(xs, wanted, picks) && BuiltAt(rows, xs, build, picks);
    i := picks[a];
    assert i in picks && Wants(xs, wanted, i);
  }

  /** Row `a` of list `slot` names the schema and the list. */
  predicate Filed(c: Casing, path: Path, slot: nat, row: Row) {
    KeyOf(c, row.path) == KeyOf(c, path) && SlotOf(c, KindOf(slot), row) == Some(slot)
  }

  lemma DataIsFiled(cfg: Config, path: Path, slot: nat, row: Row)
    requires NamesPath(cfg, path, Some(row)) && slot < 2
    ensures Filed(cfg.casing, path, slot, row)
  {
  }

  lemma FunctionIsFiled(cfg: Config, path: Path, slot: nat, row: Row, f: Function)
    requires FunctionNamed(cfg, path, f) && cfg.build.functionRow(f) == Some(row)
    requires || (slot == 2 && f.kind == "SCALAR") || (slot == 3 && f.kind == "AGGREGATE")
             || (slot == 4 && (f.kind == "TABLE" || f.kind == "TABLE_BUFFERING"))
    ensures Filed(cfg.casing, path, slot, row)
  {
  }

  lemma MacroIsFiled(cfg: Config, path: Path, slot: nat, row: Row, m: Macro)
    requires MacroNamed(cfg, path, m) && cfg.build.macroRow(path, m) == Some(row)
    requires || (slot == 5 && (m.kind == "SCALAR" || m.kind == "scalar"))
             || (slot == 6 && (m.kind == "TABLE" || m.kind == "table"))
    ensures Filed(cfg.casing, path, slot, row)
  {
  }

  function WantedFunctions(catalog: string, slot: nat): Function -> bool {
    if slot == 2 then ScalarFunctions(catalog)
    else if slot == 3 then AggregateFunctions(catalog)
    else TableFunctions(catalog)
  }

  lemma ServedDataIsFiled(cfg: Config, catalog: string, s: Schema, slot: nat, rows: seq<Row>, a: nat)
    requires RowsNameObjects(cfg) && ListServed(cfg, catalog, s, slot, rows) && slot < 2 && a < |rows|
    ensures Filed(cfg.casing, s.info.path, slot, rows[a])
  {
    var path := s.info.path;
    if slot == 0 {
      var i := BuiltComesFrom(rows, s.tables, Every(), TableRows(cfg, path), a);
      assert NamesPath(cfg, path, cfg.build.tableRow(path, s.tables[i]));
    } else {
      var i := BuiltComesFrom(rows, s.views, Every(), ViewRows(cfg, path), a);
      assert NamesPath(cfg, path, cfg.build.viewRow(path, s.views[i]));
    }
    DataIsFiled(cfg, path, slot, rows[a]);
  }

  lemma ServedFunctionIsFiled(cfg: Config, catalog: string, s: Schema, slot: nat, rows: seq<Row>, a: nat)
    requires Files(cfg, s) && RowsNameObjects(cfg) && ListServed(cfg, catalog, s, slot, rows)
    requires 2 <= slot <= 4 && a < |rows|
    ensures Filed(cfg.casing, s.info.path, slot, rows[a])
  {
    var i := BuiltComesFrom(rows, s.functions, WantedFunctions(catalog, slot), cfg.build.functionRow, a);
    var key := PathKey(cfg.casing, s.info.path);
    assert FunctionNamed(cfg, cfg.schemas[key].info.path, cfg.schemas[key].functions[i]);
    FunctionIsFiled(cfg, s.info.path, slot, rows[a], s.functions[i]);
  }

  lemma ServedMacroIsFiled(cfg: Config, catalog: string, s: Schema, slot: nat, rows: seq<Row>, a: nat)
    requires RowsNameObjects(cfg) && ListServed(cfg, catalog, s, slot, rows) && 5 <= slot <= 6 && a < |rows|
    ensures Filed(cfg.casing, s.info.path, slot, rows[a])
  {
    var path := s.info.path;
    var wanted := if slot == 5 then ScalarMacros() else TableMacros();
    var i := BuiltComesFrom(rows, s.macros, wanted, MacroRows(cfg, path), a);
    assert MacroNamed(cfg, path, s.macros[i]);
    MacroIsFiled(cfg, path, slot, rows[a], s.macros[i]);
  }

  lemma RowIsFiled(cfg: Config, catalog: string, s: Schema, slot: nat, rows: seq<Row>, a: nat)
    requires Files(cfg, s) && RowsNameObjects(cfg) && ListServed(cfg, catalog, s, slot, rows)
    requires slot < 8 && a < |rows|
    ensures Filed(cfg.casing, s.info.path, slot, rows[a])
  {
    if slot < 2 {
      ServedDataIsFiled(cfg, catalog, s, slot, rows, a);
    } else if slot < 5 {
      ServedFunctionIsFiled(cfg, catalog, s, slot, rows, a);
    } else {
      ServedMacroIsFiled(cfg, catalog, s, slot, rows, a);
    }
  }

  lemma ServedFits(cfg: Config, catalog: string, s: Schema, e: Entry)
    requires Files(cfg, s) && RowsNameObjects(cfg) && RowsNamePaths(cfg.build) && EntryServes(cfg, catalog, s, e)
    ensures EntryFits(cfg.casing, e)
  {
    forall slot, a | 0 <= slot < SLOTS && 0 <= a < |e.lists[slot]|
      ensures RowFits(cfg.casing, e, slot, e.lists[slot][a])
    {
      assert ListServed(cfg, catalog, s, slot, e.lists[slot]);
      RowIsFiled(cfg, catalog, s, slot, e.lists[slot], a);
    }
  }

  // ---- The catalog an attachment names --------------------------------------------------

  /** The name is what comes before the first NUL. */
  predicate NamedBy(attach: string, name: string) {
    '\0' !in name && (attach == name || name + ['\0'] <= attach)
  }

  lemma NothingBeforeNul(attach: string, name: string)
    requires attach != [] && (attach[0] == '\0' || name == [])
    ensures NamedBy(attach, name) <==> name == [] && attach[0] == '\0'
  {
    assert name != [] ==> name[0] in name;
    assert [] + ['\0'] == ['\0'];
    assert ['\0'] <= attach <==> attach[0] == '\0';
  }

  lemma NamedStep(attach: string, name: string)
    requires attach != [] && attach[0] != '\0' && name != []
    ensures NamedBy(attach, name) <==> name[0] == attach[0] && NamedBy(attach[1..], name[1..])
  {
    assert name == [name[0]] + name[1..] && attach == [attach[0]] + attach[1..];
    var rest := name[1..] + ['\0'];
    assert name + ['\0'] == [name[0]] + rest;
    assert [name[0]] + rest <= attach <==> name[0] == attach[0] && rest <= attach[1..] by {
      if name[0] == attach[0] && rest <= attach[1..] {
        assert attach[..|rest| + 1] == [attach[0]] + attach[1..][..|rest|];
      }
    }
  }

  lemma {:induction false} NameIsBeforeNul(attach: string, name: string)
    ensures NamedBy(attach, name) <==> NameOf(attach) == name
  {
    if attach != [] {
      if attach[0] == '\0' || name == [] {
        NothingBeforeNul(attach, name);
      } else {
        NamedStep(attach, name);
        NameIsBeforeNul(attach[1..], name[1..]);
      }
    }
  }

  /** The catalog served under a name: itself if the worker has it, else its own. */
  function CatalogFor(names: Names, name: string): string {
    if name in names.aliases || name in names.extras then name else names.primary
  }

  /** An alias with a catalog row of its own shows "main" only. */
  predicate Shown(cfg: Config, name: string, key: string) {
    key in cfg.schemas && (name in cfg.names.aliasInfos ==> key == "main")
  }

  // ---- All schemas -----------------------------------------------------------------------

  lemma {:induction false} EnumeratedExactly(cfg: Config, names: set<string>, info: Info)
    requires names <= cfg.schemas.Keys
    ensures info in Enumerate(cfg, names) <==> exists key :: key in names && cfg.schemas[key].info == info
    decreases |names|
  {
    if names != {} {
      var first := Pick(names);
      EnumeratedExactly(cfg, names - {first}, info);
      if key :| key in names && cfg.schemas[key].info == info {
        if key != first { assert key in names - {first}; }
      }
    }
  }

  /** The listed infos are those of the shown schemas. */
  lemma ListedExactly(cfg: Config, name: string, info: Info)
    ensures info in Listing(cfg, name in cfg.names.aliasInfos) <==>
            exists key :: Shown(cfg, name, key) && cfg.schemas[key].info == info
  {
    var aliasOnly := name in cfg.names.aliasInfos;
    var visible := Visible(cfg, aliasOnly);
    var all := Enumerate(cfg, visible);
    SortKeepsElements(InfoOrder(cfg.casing), all);
    assert info in Listing(cfg, aliasOnly) <==> info in multiset(Listing(cfg, aliasOnly));
    assert info in all <==> info in multiset(all);
    EnumeratedExactly(cfg, visible, info);
    assert forall key :: key in visible <==> Shown(cfg, name, key);
  }

  /** The schema an info belongs to. */
  function SchemaFor(cfg: Config, info: Info): Schema
    requires IsRegistered(cfg, info)
  {
    cfg.schemas[PathKey(cfg.casing, info.path)]
  }

  predicate IsRegistered(cfg: Config, info: Info) {
    var key := PathKey(cfg.casing, info.path);
    key in cfg.schemas && cfg.schemas[key].info == info
  }

  lemma ListedIsRegistered(cfg: Config, name: string)
    requires Registered(cfg)
    ensures forall info :: info in Listing(cfg, name in cfg.names.aliasInfos) ==>
              IsRegistered(cfg, info) && Shown(cfg, name, PathKey(cfg.casing, info.path))
  {
    forall info | info in Listing(cfg, name in cfg.names.aliasInfos)
      ensures IsRegistered(cfg, info) && Shown(cfg, name, PathKey(cfg.casing, info.path))
    {
      ListedExactly(cfg, name, info);
      var key :| Shown(cfg, name, key) && cfg.schemas[key].info == info;
    }
  }

  ghost predicate AllServe(cfg: Config, catalog: string, infos: seq<Info>, entries: seq<Entry>)
    requires forall i :: 0 <= i < |infos| ==> IsRegistered(cfg, infos[i])
  {
    |entries| == |infos| &&
    forall i :: 0 <= i < |infos| ==> EntryServes(cfg, catalog, SchemaFor(cfg, infos[i]), entries[i])
  }

  lemma {:induction false} AllComposed(cfg: Config, catalog: string, infos: seq<Info>)
    requires Registered(cfg) && forall i :: 0 <= i < |infos| ==> IsRegistered(cfg, infos[i])
    ensures ComposeAll(cfg, catalog, infos).Some? <==>
            forall i :: 0 <= i < |infos| ==> ServableInfo(cfg, catalog, infos[i])
    ensures var all := ComposeAll(cfg, catalog, infos); all.Some? ==> AllServe(cfg, catalog, infos, all.value)
  {
    if infos != [] {
      var n := |infos| - 1;
      assert forall i :: 0 <= i < n ==> infos[..n][i] == infos[i];
      AllComposed(cfg, catalog, infos[..n]);
      ComposedServes(cfg, catalog, SchemaFor(cfg, infos[n]));
      if ComposeAll(cfg, catalog, infos).Some? {
        var before, e := ComposeAll(cfg, catalog, infos[..n]).value, ComposeEntry(cfg, catalog, infos[n]).value;
        forall i | 0 <= i < |infos|
          ensures EntryServes(cfg, catalog, SchemaFor(cfg, infos[i]), (before + [e])[i])
        {
          if i < n { assert infos[..n][i] == infos[i]; }
        }
      }
    }
  }

  // ---- The answer --------------------------------------------------------------------

  predicate ComesBefore(c: Casing, a: Path, b: Path) {
    |a| < |b| || (|a| == |b| && TextLess(PathKey(c, a), PathKey(c, b)))
  }

  ghost predicate EntryIsShown(cfg: Config, name: string, e: Entry) {
    var key := PathKey(cfg.casing, e.path);
    Shown(cfg, name, key) && EntryServes(cfg, CatalogFor(cfg.names, name), cfg.schemas[key], e)
  }

  ghost predicate HasEntry(cfg: Config, entries: seq<Entry>, key: string) {
    exists i :: 0 <= i < |entries| && PathKey(cfg.casing, entries[i].path) == key
  }

  /** One entry for each shown schema, shallow ones first and then by key, with its objects. */
  ghost predicate ServesCatalog(cfg: Config, name: string, entries: seq<Entry>) {
    && (forall i :: 0 <= i < |entries| ==> EntryIsShown(cfg, name, entries[i]))
    && (forall key :: Shown(cfg, name, key) ==> HasEntry(cfg, entries, key))
    && (forall i, j :: 0 <= i < j < |entries| ==> ComesBefore(cfg.casing, entries[i].path, entries[j].path))
  }

  /** The schema is at the top or its parent is shown. */
  ghost predicate Rooted(cfg: Config, name: string, path: Path) {
    path != [] && (|path| > 1 ==>
      exists key :: Shown(cfg, name, key) &&
        KeyOf(cfg.casing, cfg.schemas[key].info.path) == KeyOf(cfg.casing, path[..|path| - 1]))
  }

  /** The records of all shown schemas can be built, and every shown schema has its parent shown. */
  ghost predicate CanAnswer(cfg: Config, name: string) {
    && (forall key :: Shown(cfg, name, key) ==> CanServe(cfg, CatalogFor(cfg.names, name), cfg.schemas[key]))
    && AllRooted(cfg, name)
  }

  lemma EntriesServeCatalog(cfg: Config, name: string, entries: seq<Entry>)
    requires Registered(cfg)
    requires var infos := Listing(cfg, name in cfg.names.aliasInfos);
      && (forall i :: 0 <= i < |infos| ==> IsRegistered(cfg, infos[i]))
      && AllServe(cfg, CatalogFor(cfg.names, name), infos, entries)
    ensures ServesCatalog(cfg, name, entries)
  {
    var c, infos := cfg.casing, Listing(cfg, name in cfg.names.aliasInfos);
    ListedIsRegistered(cfg, name);
    ListingShape(cfg, name in cfg.names.aliasInfos);
    forall i | 0 <= i < |entries| ensures EntryIsShown(cfg, name, entries[i]) {
      assert infos[i] in infos;
      assert EntryServes(cfg, CatalogFor(cfg.names, name), SchemaFor(cfg, infos[i]), entries[i]);
    }
    forall key | Shown(cfg, name, key) ensures HasEntry(cfg, entries, key) {
      ListedExactly(cfg, name, cfg.schemas[key].info);
      var i :| 0 <= i < |infos| && infos[i] == cfg.schemas[key].info;
      assert EntryServes(cfg, CatalogFor(cfg.names, name), SchemaFor(cfg, infos[i]), entries[i]);
      assert PathKey(c, entries[i].path) == key;
    }
    forall i, j | 0 <= i < j < |entries| ensures ComesBefore(c, entries[i].path, entries[j].path) {
      assert EntryServes(cfg, CatalogFor(cfg.names, name), SchemaFor(cfg, infos[i]), entries[i]);
      assert EntryServes(cfg, CatalogFor(cfg.names, name), SchemaFor(cfg, infos[j]), entries[j]);
      assert !InfoOrder(c)(infos[j], infos[i]) && InfoKey(c)(infos[i]) != InfoKey(c)(infos[j]);
      TextLessIsTotal(PathKey(c, infos[i].path), PathKey(c, infos[j].path));
    }
  }

  /** An entry and its row are of the shown schema under its key. */
  predicate OfShown(cfg: Config, name: string, e: Entry) {
    var key := PathKey(cfg.casing, e.path);
    Shown(cfg, name, key) && cfg.schemas[key].info.path == e.path == e.schema.path
  }

  /** The schemas of the entries, without their objects. */
  ghost predicate Outline(cfg: Config, name: string, entries: seq<Entry>) {
    && (forall i :: 0 <= i < |entries| ==> OfShown(cfg, name, entries[i]))
    && (forall key :: Shown(cfg, name, key) ==> HasEntry(cfg, entries, key))
    && (forall i, j :: 0 <= i < j < |entries| ==> ComesBefore(cfg.casing, entries[i].path, entries[j].path))
  }

  lemma ServedOutline(cfg: Config, name: string, entries: seq<Entry>)
    requires RowsNamePaths(cfg.build) && ServesCatalog(cfg, name, entries)
    ensures Outline(cfg, name, entries)
  {
    forall i | 0 <= i < |entries| ensures OfShown(cfg, name, entries[i]) {
      assert EntryIsShown(cfg, name, entries[i]);
    }
  }

  lemma ServedSchemasAreOk(cfg: Config, name: string, entries: seq<Entry>)
    requires Outline(cfg, name, entries)
    ensures SchemasOk(cfg.casing, SchemaRows(entries)) <==>
            forall key :: Shown(cfg, name, key) ==> Rooted(cfg, name, cfg.schemas[key].info.path)
  {
    if forall key :: Shown(cfg, name, key) ==> Rooted(cfg, name, cfg.schemas[key].info.path) {
      forall i | 0 <= i < |entries| ensures SchemaOk(cfg.casing, SchemaRows(entries)[..i], SchemaRows(entries)[i]) {
        assert OfShown(cfg, name, entries[i]);
        RootedIsOk(cfg, name, entries, i);
      }
    }
    if SchemasOk(cfg.casing, SchemaRows(entries)) {
      forall key | Shown(cfg, name, key) ensures Rooted(cfg, name, cfg.schemas[key].info.path) {
        OkIsRooted(cfg, name, entries, key);
      }
    }
  }

  lemma RootedIsOk(cfg: Config, name: string, entries: seq<Entry>, i: nat)
    requires Outline(cfg, name, entries) && i < |entries| && Rooted(cfg, name, entries[i].path)
    ensures SchemaOk(cfg.casing, SchemaRows(entries)[..i], SchemaRows(entries)[i])
  {
    var c, rows, path := cfg.casing, SchemaRows(entries), entries[i].path;
    assert OfShown(cfg, name, entries[i]);
    forall j | 0 <= j < i ensures KeyOf(c, rows[..i][j].path) != KeyOf(c, path) {
      assert OfShown(cfg, name, entries[j]) && rows[..i][j] == entries[j].schema;
      assert ComesBefore(c, entries[j].path, path);
      TextLessIsTotal(PathKey(c, path), PathKey(c, path));
      assert |KeyOf(c, entries[j].path)| == |entries[j].path| && |KeyOf(c, path)| == |path|;
    }
    if |path| > 1 { ParentIsEarlier(cfg, name, entries, i); }
  }

  lemma ParentIsEarlier(cfg: Config, name: string, entries: seq<Entry>, i: nat)
    requires Outline(cfg, name, entries) && i < |entries|
    requires |entries[i].path| > 1 && Rooted(cfg, name, entries[i].path)
    ensures var path := entries[i].path;
      Known(cfg.casing, SchemaRows(entries)[..i], KeyOf(cfg.casing, path[..|path| - 1]))
  {
    var c, rows, path := cfg.casing, SchemaRows(entries), entries[i].path;
    var parent := KeyOf(c, path[..|path| - 1]);
    var key :| Shown(cfg, name, key) && KeyOf(c, cfg.schemas[key].info.path) == parent;
    assert HasEntry(cfg, entries, key);
    var j :| 0 <= j < |entries| && PathKey(c, entries[j].path) == key;
    assert OfShown(cfg, name, entries[j]);
    assert |entries[j].path| == |parent| == |path| - 1;
    assert rows[..i][j] == entries[j].schema;
  }

  lemma OkIsRooted(cfg: Config, name: string, entries: seq<Entry>, key: string)
    requires Outline(cfg, name, entries) && Shown(cfg, name, key) && SchemasOk(cfg.casing, SchemaRows(entries))
    ensures Rooted(cfg, name, cfg.schemas[key].info.path)
  {
    var c, rows := cfg.casing, SchemaRows(entries);
    assert HasEntry(cfg, entries, key);
    var i :| 0 <= i < |entries| && PathKey(c, entries[i].path) == key;
    assert OfShown(cfg, name, entries[i]) && SchemaOk(c, rows[..i], rows[i]);
    var path := entries[i].path;
    if |path| > 1 {
      var j :| 0 <= j < i && KeyOf(c, rows[..i][j].path) == KeyOf(c, path[..|path| - 1]);
      assert rows[..i][j] == entries[j].schema && OfShown(cfg, name, entries[j]);
    }
  }

  lemma ServedEntriesFit(cfg: Config, name: string, entries: seq<Entry>)
    requires Registered(cfg) && RowsNamePaths(cfg.build) && RowsNameObjects(cfg) && ServesCatalog(cfg, name, entries)
    ensures AllEntriesFit(cfg.casing, entries) && Shaped(entries)
  {
    forall i | 0 <= i < |entries| ensures EntryFits(cfg.casing, entries[i]) {
      assert EntryIsShown(cfg, name, entries[i]);
      var key := PathKey(cfg.casing, entries[i].path);
      ServedFits(cfg, CatalogFor(cfg.names, name), cfg.schemas[key], entries[i]);
    }
  }

  ghost predicate AllRooted(cfg: Config, name: string) {
    forall key :: Shown(cfg, name, key) ==> Rooted(cfg, name, cfg.schemas[key].info.path)
  }

  /** The encoded entries decode to themselves, or not at all if a parent is missing. */
  lemma ServedDecodes(cfg: Config, name: string, entries: seq<Entry>)
    requires Registered(cfg) && RowsNamePaths(cfg.build) && RowsNameObjects(cfg) && ServesCatalog(cfg, name, entries)
    ensures Shaped(entries)
    ensures Decode(cfg.casing, AllKinds(entries)) == if AllRooted(cfg, name) then Some(entries) else None
  {
    ServedEntriesFit(cfg, name, entries);
    ServedOutline(cfg, name, entries);
    ServedSchemasAreOk(cfg, name, entries);
    EncodedDecodes(cfg.casing, entries);
    RoundTripExact(cfg.casing, entries);
  }

  ghost predicate ServableInfo(cfg: Config, catalog: string, info: Info) {
    IsRegistered(cfg, info) && CanServe(cfg, catalog, SchemaFor(cfg, info))
  }

  /** All listed schemas can be served exactly when all shown ones can. */
  lemma ListedOrShown(cfg: Config, catalog: string, name: string)
    requires Registered(cfg)
    ensures var infos := Listing(cfg, name in cfg.names.aliasInfos);
      (forall i :: 0 <= i < |infos| ==> ServableInfo(cfg, catalog, infos[i])) <==>
      (forall key :: Shown(cfg, name, key) ==> CanServe(cfg, catalog, cfg.schemas[key]))
  {
    var infos := Listing(cfg, name in cfg.names.aliasInfos);
    ListedIsRegistered(cfg, name);
    if forall i :: 0 <= i < |infos| ==> ServableInfo(cfg, catalog, infos[i]) {
      forall key | Shown(cfg, name, key) ensures CanServe(cfg, catalog, cfg.schemas[key]) {
        ListedExactly(cfg, name, cfg.schemas[key].info);
        var i :| 0 <= i < |infos| && infos[i] == cfg.schemas[key].info;
        assert ServableInfo(cfg, catalog, infos[i]);
      }
    }
    if forall key :: Shown(cfg, name, key) ==> CanServe(cfg, catalog, cfg.schemas[key]) {
      forall i | 0 <= i < |infos| ensures ServableInfo(cfg, catalog, infos[i]) {
        assert infos[i] in infos;
      }
    }
  }

  lemma ComposedCatalog(cfg: Config, attach: string, name: string)
    requires Registered(cfg) && NamedBy(attach, name)
    ensures var composed := ComposeAll(cfg, CatalogOf(cfg.names, attach), Listing(cfg, AliasOnly(cfg.names, attach)));
      && (composed.Some? <==>
            forall key :: Shown(cfg, name, key) ==> CanServe(cfg, CatalogFor(cfg.names, name), cfg.schemas[key]))
      && (composed.Some? ==> ServesCatalog(cfg, name, composed.value))
  {
    NameIsBeforeNul(attach, name);
    var catalog, infos := CatalogFor(cfg.names, name), Listing(cfg, name in cfg.names.aliasInfos);
    ListedIsRegistered(cfg, name);
    forall i | 0 <= i < |infos| ensures IsRegistered(cfg, infos[i]) { assert infos[i] in infos; }
    AllComposed(cfg, catalog, infos);
    ListedOrShown(cfg, catalog, name);
    if ComposeAll(cfg, catalog, infos).Some? {
      EntriesServeCatalog(cfg, name, ComposeAll(cfg, catalog, infos).value);
    }
  }

  /** What an attachment is answered, in terms of what was registered: there is an answer exactly when
      every record can be built and every shown schema has its parent shown, and the client decodes
      from it one entry per shown schema with exactly the objects of each kind that the catalog owns,
      in registration order. */
  lemma AnswerServesCatalog(cfg: Config, mode: EtagMode, attach: string, name: string, version: int,
                            ifNoneMatch: Option<string>)
    requires Registered(cfg) && RowsNamePaths(cfg.build) && RowsNameObjects(cfg) && NamedBy(attach, name)
    ensures var r := ComposedAnswer(cfg, mode, attach, version, ifNoneMatch);
      && (r.Some? <==> CanAnswer(cfg, name))
      && (r.Some? && !r.value.notModified ==>
            && DecodeResponse(cfg.casing, r.value).Some?
            && ServesCatalog(cfg, name, DecodeResponse(cfg.casing, r.value).value))
  {
    ComposedCatalog(cfg, attach, name);
    var composed := ComposeAll(cfg, CatalogOf(cfg.names, attach), Listing(cfg, AliasOnly(cfg.names, attach)));
    if composed.Some? {
      var entries := composed.value;
      ServedDecodes(cfg, name, entries);
      ComposedIsDecoded(cfg, mode, attach, version, ifNoneMatch, entries);
      StreamsKeepRows(AllKinds(entries));
    }
  }

  /** The answer to a plain request carries the version and, if the worker hashes contents, the digest
      of its streams; a request that already has that etag is answered with the etag alone. */
  lemma EtagExactly(cfg: Config, mode: EtagMode, attach: string, version: int, ifNoneMatch: Option<string>)
    ensures var full, r := ComposedAnswer(cfg, mode, attach, version, None),
                           ComposedAnswer(cfg, mode, attach, version, ifNoneMatch);
      && (full.Some? <==> r.Some?)
      && (full.Some? ==>
            && !full.value.notModified && full.value.version == version
            && full.value.etag == (if mode.contentHash then Some(mode.digest(version, full.value.streams)) else None))
      && (full.Some? && ifNoneMatch.Some? && ifNoneMatch == full.value.etag ==>
            && r.value.notModified && r.value.version == version && r.value.etag == full.value.etag
            && forall k :: 0 <= k < |r.value.streams| ==> r.value.streams[k].None?)
      && (full.Some? && (ifNoneMatch.None? || ifNoneMatch != full.value.etag) ==> r == full)
  {
  }

  /** A handler's own etag is kept; without one the worker's digest is used, if it hashes contents. */
  lemma HandlerEtagExactly(c: Casing, mode: EtagMode, given: Snapshot, version: int)
    requires Shaped(given.schemas) && !given.notModified
    ensures var r := Answer(c, mode, given, true, version, None);
      r.Some? ==>
        && !r.value.notModified && r.value.version == version
        && (given.etag.Some? ==> r.value.etag == given.etag)
        && (given.etag.None? && mode.contentHash ==> r.value.etag == Some(mode.digest(version, r.value.streams)))
        && (given.etag.None? && !mode.contentHash ==> r.value.etag.None?)
  {
  }

  /** A handler may answer that nothing has changed exactly when it names the etag the request has and
      sends no schemas. */
  lemma HandlerNotModifiedExactly(c: Casing, mode: EtagMode, given: Snapshot, version: int, ifNoneMatch: Option<string>)
    requires Shaped(given.schemas) && given.notModified
    ensures var r := Answer(c, mode, given, true, version, ifNoneMatch);
      && (r.Some? <==> given.etag.Some? && ifNoneMatch == given.etag && given.schemas == [])
      && (r.Some? ==> r.value.notModified && r.value.version == version && r.value.etag == given.etag)
      && (r.Some? ==> DecodeResponse(c, r.value) == Some([]))
  {
  }

  // ---- Listings of functions ---------------------------------------------------------------

  /** The function types a request asks for; one it does not know asks for all. */
  predicate Asks(requested: string, kind: string) {
    if requested in {"SCALAR", "SCALAR_FUNCTION", "scalar"} then kind == "SCALAR"
    else if requested in {"AGGREGATE", "AGGREGATE_FUNCTION", "aggregate"} then kind == "AGGREGATE"
    else if requested in {"TABLE", "TABLE_FUNCTION", "table"} then kind == "TABLE" || kind == "TABLE_BUFFERING"
    else true
  }

  function Requested(requested: string, catalog: string): Function -> bool {
    (f: Function) => Asks(requested, f.kind) && OwnedBy(catalog, f)
  }

  /** The listing of a schema's functions: those of the requested type that the catalog owns, in
      registration order. */
  lemma FunctionsListedExactly(cfg: Config, key: string, requested: string, catalog: string)
    requires key in cfg.schemas
    ensures var items, fs := FunctionItems(cfg, key, requested, catalog), cfg.schemas[key].functions;
      && (items.Some? <==> AllBuild(fs, Requested(requested, catalog), cfg.build.functionRow))
      && (items.Some? ==> BuiltFrom(items.value, fs, Requested(requested, catalog), cfg.build.functionRow))
  {
    var fs := cfg.schemas[key].functions;
    KindIsAsked(requested);
    ListIsServed(true, Keeps(FunctionListingKind(requested), catalog), cfg.build.functionRow, fs,
      Requested(requested, catalog));
  }

  lemma KindIsAsked(requested: string)
    ensures forall kind :: ListsFunction(FunctionListingKind(requested), kind) <==> Asks(requested, kind)
  {
  }
}
