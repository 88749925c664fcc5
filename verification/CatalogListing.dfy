/**
  What a worker's static catalog lists for an attachment: the catalog an
  attachment resolves to (vgi/catalog.go), the schemas it shows in
  parent-before-child order (vgi/catalog_contents.go, `listSchemaInfos`), and
  the objects of one schema kind by kind.
 */
module CatalogListing {
  import opened Wrappers
  import opened Strings
  import opened CatalogStreams
  import opened StableSort

  datatype Info = Info(path: Path, counts: map<string, int>, rest: string)

  datatype Function = Function(kind: string, unlisted: bool, home: string, rest: string)

  datatype Macro = Macro(kind: string, rest: string)

  datatype Schema = Schema(info: Info, tables: seq<string>, views: seq<string>, functions: seq<Function>,
    macros: seq<Macro>)

  /** The record builders; building a record may fail. */
  datatype Builders = Builders(
    schemaRow: Info -> Option<Row>,
    tableRow: (Path, string) -> Option<Row>,
    viewRow: (Path, string) -> Option<Row>,
    functionRow: Function -> Option<Row>,
    macroRow: (Path, Macro) -> Option<Row>)

  /** The names a worker serves: its own catalog, aliases of it, other catalogs,
      and the aliases that have their own catalog row. */
  datatype Names = Names(primary: string, aliases: set<string>, extras: set<string>, aliasInfos: set<string>)

  datatype Config = Config(casing: Casing, names: Names, schemas: map<string, Schema>, build: Builders)

  // ---- Names -------------------------------------------------------------

  /** The bytes of an attach plaintext before the first NUL. */
  function NameOf(attach: string): string {
    if attach == [] || attach[0] == '\0' then [] else [attach[0]] + NameOf(attach[1..])
  }

  /** vgi/catalog.go, `catalogOfAttach`, for an attachment of neither a writable
      nor a routed catalog. */
  function CatalogOf(names: Names, attach: string): string {
    var name := NameOf(attach);
    if name == names.primary || name in names.aliases || name in names.extras then name else names.primary
  }

  predicate AliasOnly(names: Names, attach: string) {
    NameOf(attach) in names.aliasInfos
  }

  // ---- Order of schemas ----------------------------------------------------

  /** `schemaPathKey`: lower-cased components joined by NUL. */
  function PathKey(c: Casing, path: Path): string {
    Join(KeyOf(c, path))
  }

  function Join(parts: seq<string>): string {
    if parts == [] then "" else if |parts| == 1 then parts[0] else parts[0] + ['\0'] + Join(parts[1..])
  }

  predicate Before(c: Casing, a: Info, b: Info) {
    |a.path| < |b.path| || (|a.path| == |b.path| && TextLess(PathKey(c, a.path), PathKey(c, b.path)))
  }

  function InfoOrder(c: Casing): (Info, Info) -> bool {
    (a: Info, b: Info) => Before(c, a, b)
  }

  lemma InfoOrderIsWeak(c: Casing)
    ensures WeakOrder(InfoOrder(c))
  {
    var before := InfoOrder(c);
    forall x: Info, y: Info, z: Info | !before(y, x) && !before(z, y)
      ensures !before(z, x)
    {
      if |x.path| == |y.path| == |z.path| {
        TextLessIsTransitive(PathKey(c, x.path), PathKey(c, y.path), PathKey(c, z.path));
      }
    }
    forall x: Info, y: Info | before(x, y)
      ensures !before(y, x)
    {
      TextLessIsTotal(PathKey(c, x.path), PathKey(c, y.path));
    }
  }

  // ---- listSchemaInfos -----------------------------------------------------

  /** Registration files each schema under its own path key. */
  predicate Registered(cfg: Config) {
    forall name :: name in cfg.schemas ==> PathKey(cfg.casing, cfg.schemas[name].info.path) == name
  }

  /** The schemas a request sees: all, or only "main" for an alias with its own
      catalog row. */
  function Visible(cfg: Config, aliasOnly: bool): set<string> {
    set name | name in cfg.schemas && (aliasOnly ==> name == "main")
  }

  /** The infos of `names`, in some order. */
  ghost function Enumerate(cfg: Config, names: set<string>): seq<Info>
    requires names <= cfg.schemas.Keys
  {
    if names == {} then []
    else
      var name := Pick(names);
      Enumerate(cfg, names - {name}) + [cfg.schemas[name].info]
  }

  ghost function Pick(names: set<string>): (name: string)
    requires names != {}
    ensures name in names
  {
    var name :| name in names;
    name
  }

  ghost function Listing(cfg: Config, aliasOnly: bool): seq<Info> {
    Sort(InfoOrder(cfg.casing), Enumerate(cfg, Visible(cfg, aliasOnly)))
  }

  ghost function Bag(cfg: Config, names: set<string>): multiset<Info>
    requires names <= cfg.schemas.Keys
  {
    multiset(Enumerate(cfg, names))
  }

  lemma BagPick(cfg: Config, names: set<string>)
    requires names <= cfg.schemas.Keys && names != {}
    ensures Bag(cfg, names) == Bag(cfg, names - {Pick(names)}) + multiset{cfg.schemas[Pick(names)].info}
  {
    SnocBag(Enumerate(cfg, names - {Pick(names)}), cfg.schemas[Pick(names)].info);
  }

  /** Any name may be taken out first. */
  lemma {:induction false} BagAny(cfg: Config, names: set<string>, name: string)
    requires names <= cfg.schemas.Keys && name in names
    ensures Bag(cfg, names) == Bag(cfg, names - {name}) + multiset{cfg.schemas[name].info}
    decreases |names|
  {
    BagPick(cfg, names);
    var first := Pick(names);
    if first != name {
      BagAny(cfg, names - {first}, name);
      BagAny(cfg, names - {name}, first);
      assert names - {first} - {name} == names - {name} - {first};
    }
  }

  lemma {:induction false} EnumeratedIsNamed(cfg: Config, names: set<string>, info: Info)
    requires names <= cfg.schemas.Keys && info in Enumerate(cfg, names)
    ensures exists name :: name in names && cfg.schemas[name].info == info
    decreases |names|
  {
    var first := Pick(names);
    if info != cfg.schemas[first].info {
      EnumeratedIsNamed(cfg, names - {first}, info);
    }
  }

  lemma NoTies(cfg: Config, names: set<string>)
    requires names <= cfg.schemas.Keys && Registered(cfg)
    ensures TiesAreEqual(InfoOrder(cfg.casing), Enumerate(cfg, names))
  {
    var before := InfoOrder(cfg.casing);
    var infos := Enumerate(cfg, names);
    forall a, b | a in infos && b in infos && !before(a, b) && !before(b, a)
      ensures a == b
    {
      EnumeratedIsNamed(cfg, names, a);
      EnumeratedIsNamed(cfg, names, b);
      TextLessIsTotal(PathKey(cfg.casing, a.path), PathKey(cfg.casing, b.path));
    }
  }

  /** The served order does not depend on the order in which the map of schemas
      was walked. */
  lemma ListingIsDeterministic(cfg: Config, aliasOnly: bool, infos: seq<Info>)
    requires Registered(cfg)
    requires multiset(infos) == Bag(cfg, Visible(cfg, aliasOnly))
    ensures Sort(InfoOrder(cfg.casing), infos) == Listing(cfg, aliasOnly)
  {
    var before := InfoOrder(cfg.casing);
    var all := Enumerate(cfg, Visible(cfg, aliasOnly));
    InfoOrderIsWeak(cfg.casing);
    SortOrders(before, infos);
    SortOrders(before, all);
    SortKeepsElements(before, infos);
    SortKeepsElements(before, all);
    NoTies(cfg, Visible(cfg, aliasOnly));
    var sorted := Sort(before, infos);
    assert forall a :: a in sorted ==> a in all by {
      forall a | a in sorted ensures a in all {
        assert a in multiset(sorted);
        assert a in multiset(all);
      }
    }
    OrderedIsUnique(before, sorted, Sort(before, all));
  }

  lemma TakeOne(cfg: Config, visible: set<string>, rest: set<string>, name: string, infos: seq<Info>)
    requires rest <= cfg.schemas.Keys && name in rest
    ensures name in visible ==>
              multiset(infos + [cfg.schemas[name].info]) + Bag(cfg, (rest - {name}) * visible) ==
              multiset(infos) + Bag(cfg, rest * visible)
    ensures name !in visible ==> (rest - {name}) * visible == rest * visible
  {
    if name in visible {
      BagAny(cfg, rest * visible, name);
      assert (rest - {name}) * visible == rest * visible - {name};
      SnocBag(infos, cfg.schemas[name].info);
    }
  }

  method CollectInfos(cfg: Config, aliasOnly: bool) returns (infos: seq<Info>)
    ensures multiset(infos) == Bag(cfg, Visible(cfg, aliasOnly))
  {
    ghost var visible := Visible(cfg, aliasOnly);
    infos := [];
    var rest := cfg.schemas.Keys;
    assert rest * visible == visible;
    while rest != {}
      invariant rest <= cfg.schemas.Keys
      invariant multiset(infos) + Bag(cfg, rest * visible) == Bag(cfg, visible)
      decreases |rest|
    {
      var name :| name in rest;
      TakeOne(cfg, visible, rest, name, infos);
      rest := rest - {name};
      if aliasOnly && name != "main" {
        continue;
      }
      infos := infos + [cfg.schemas[name].info];
    }
    assert rest * visible == {};
  }

  /** vgi/catalog_contents.go, `listSchemaInfos`: walk the map in any order,
      then sort. */
  method ListSchemaInfos(cfg: Config, attach: string) returns (infos: seq<Info>)
    requires Registered(cfg)
    ensures infos == Listing(cfg, AliasOnly(cfg.names, attach))
  {
    var aliasOnly := AliasOnly(cfg.names, attach);
    infos := CollectInfos(cfg, aliasOnly);
    ListingIsDeterministic(cfg, aliasOnly, infos);
    infos := Sort(InfoOrder(cfg.casing), infos);
  }
}
