/**
  The caches in front of the catalog listings: `catalogContents`
  (vgi/catalog_contents.go) keeps one full response per catalog name and
  version, `functionListing` (vgi/catalog_function_listing.go) one listing per
  schema, kind and catalog name.  A hit or a miss returns what a fresh
  computation would.
 */
module CatalogCache {
  import opened Wrappers
  import opened Collections
  import opened CatalogStreams
  import opened CatalogCodec
  import opened CatalogListing
  import opened CatalogContents
  import opened StableSort

  // ---- When a catalog name is enough of a key ------------------------------

  /** Alias-info names are aliases (or other catalogs) and not the primary. */
  predicate NamesOk(names: Names) {
    names.aliasInfos <= names.aliases + names.extras && names.primary !in names.aliasInfos
  }

  lemma SameCatalogSameAliasing(names: Names, a: string, b: string)
    requires NamesOk(names) && CatalogOf(names, a) == CatalogOf(names, b)
    ensures AliasOnly(names, a) == AliasOnly(names, b)
  {
  }

  lemma SameCatalogSameAnswer(cfg: Config, mode: EtagMode, a: string, b: string, version: int,
                              ifNoneMatch: Option<string>)
    requires NamesOk(cfg.names) && CatalogOf(cfg.names, a) == CatalogOf(cfg.names, b)
    ensures ComposedAnswer(cfg, mode, a, version, ifNoneMatch) == ComposedAnswer(cfg, mode, b, version, ifNoneMatch)
  {
    SameCatalogSameAliasing(cfg.names, a, b);
  }

  lemma {:induction false} LongerThanAll(names: set<string>) returns (n: nat)
    ensures forall x :: x in names ==> |x| < n
    decreases |names|
  {
    if names == {} {
      n := 0;
    } else {
      var x :| x in names;
      n := LongerThanAll(names - {x});
      if n <= |x| {
        n := |x| + 1;
      }
    }
  }

  function Plain(n: nat): (s: string)
    ensures |s| == n && NameOf(s) == s
  {
    if n == 0 then [] else ['a'] + Plain(n - 1)
  }

  predicate NulFreeNames(names: Names) {
    NameOf(names.primary) == names.primary && forall x :: x in names.aliasInfos ==> NameOf(x) == x
  }

  /** Without `NamesOk`, two attachments share a key of which one hides schemas. */
  lemma KeysCollide(names: Names) returns (a: string, b: string)
    requires NulFreeNames(names) && !NamesOk(names)
    ensures CatalogOf(names, a) == CatalogOf(names, b)
    ensures AliasOnly(names, a) && !AliasOnly(names, b)
  {
    var n := LongerThanAll(names.aliases + names.extras + names.aliasInfos + {names.primary});
    b := Plain(n);
    assert b !in names.aliases + names.extras + names.aliasInfos + {names.primary};
    if names.primary in names.aliasInfos {
      a := names.primary;
    } else {
      a :| a in names.aliasInfos && a !in names.aliases + names.extras;
    }
  }

  lemma {:induction false} EnumerateLength(cfg: Config, names: set<string>)
    requires names <= cfg.schemas.Keys
    ensures |Enumerate(cfg, names)| == |names|
    decreases |names|
  {
    if names != {} {
      EnumerateLength(cfg, names - {Pick(names)});
    }
  }

  lemma SameListingSameSchemas(cfg: Config)
    requires Listing(cfg, true) == Listing(cfg, false)
    ensures cfg.schemas.Keys <= {"main"}
  {
    var some, all := Visible(cfg, true), Visible(cfg, false);
    EnumerateLength(cfg, some);
    EnumerateLength(cfg, all);
    SortKeepsElements(InfoOrder(cfg.casing), Enumerate(cfg, some));
    SortKeepsElements(InfoOrder(cfg.casing), Enumerate(cfg, all));
    assert |multiset(Enumerate(cfg, some))| == |multiset(Enumerate(cfg, all))|;
    SameSize(some, all);
    forall name | name in cfg.schemas
      ensures name == "main"
    {
      assert name in all;
    }
  }

  ghost predicate NameDecidesListing(cfg: Config) {
    forall a, b :: CatalogOf(cfg.names, a) == CatalogOf(cfg.names, b) ==>
      Listing(cfg, AliasOnly(cfg.names, a)) == Listing(cfg, AliasOnly(cfg.names, b))
  }

  /** The catalog name decides which schemas are listed exactly when alias-info
      names are proper aliases, or there is nothing but "main" to hide. */
  lemma NameIsKeyExactly(cfg: Config)
    requires NulFreeNames(cfg.names)
    ensures NameDecidesListing(cfg) <==> NamesOk(cfg.names) || cfg.schemas.Keys <= {"main"}
  {
    if NamesOk(cfg.names) {
      forall a, b | CatalogOf(cfg.names, a) == CatalogOf(cfg.names, b)
        ensures AliasOnly(cfg.names, a) == AliasOnly(cfg.names, b)
      {
        SameCatalogSameAliasing(cfg.names, a, b);
      }
    } else if cfg.schemas.Keys <= {"main"} {
      assert Visible(cfg, true) == Visible(cfg, false);
    } else if NameDecidesListing(cfg) {
      var a, b := KeysCollide(cfg.names);
      SameListingSameSchemas(cfg);
    }
  }

  /** Otherwise two attachments share a cache key and see different schemas. */
  lemma AliasingDiffers(cfg: Config) returns (a: string, b: string)
    requires NulFreeNames(cfg.names) && !NamesOk(cfg.names) && !(cfg.schemas.Keys <= {"main"})
    ensures CatalogOf(cfg.names, a) == CatalogOf(cfg.names, b)
    ensures Listing(cfg, AliasOnly(cfg.names, a)) != Listing(cfg, AliasOnly(cfg.names, b))
  {
    a, b := KeysCollide(cfg.names);
    if Listing(cfg, true) == Listing(cfg, false) { SameListingSameSchemas(cfg); }
  }

  // ---- catalogContents -------------------------------------------------------

  /** The full answer cached for a name and version is the answer of every
      attachment of that name. */
  ghost predicate Current(cfg: Config, mode: EtagMode, name: string, version: int, full: Response) {
    forall attach :: CatalogOf(cfg.names, attach) == name ==>
      ComposedAnswer(cfg, mode, attach, version, None) == Some(full)
  }

  /** Revalidating a full answer gives the answer to the conditional request. */
  lemma Revalidates(cfg: Config, mode: EtagMode, attach: string, version: int, ifNoneMatch: Option<string>)
    ensures ComposedAnswer(cfg, mode, attach, version, ifNoneMatch) ==
            match ComposedAnswer(cfg, mode, attach, version, None)
            case None => None
            case Some(full) =>
              Some(if full.etag.Some? &&
                ifNoneMatch == full.etag then NotModifiedResponse(version, full.etag.value) else full)
  {
  }

  class ContentsCache {
    const cfg: Config
    const mode: EtagMode
    var cached: map<(string, int), Response>

    ghost predicate Valid()
      reads this
    {
      && Registered(cfg) && RowsNamePaths(cfg.build) && NamesOk(cfg.names)
      && forall key :: key in cached ==> Current(cfg, mode, key.0, key.1, cached[key])
    }

    constructor (cfg: Config, mode: EtagMode)
      requires Registered(cfg) && RowsNamePaths(cfg.build) && NamesOk(cfg.names)
      ensures Valid() && this.cfg == cfg && this.mode == mode && cached == map[]
    {
      this.cfg := cfg;
      this.mode := mode;
      cached := map[];
    }

    /** `sync.Map.LoadOrStore`: of several concurrent builders, the first wins
        and all serve its response. */
    method LoadOrStore(key: (string, int), built: Response) returns (full: Response)
      requires Valid() && Current(cfg, mode, key.0, key.1, built)
      modifies this`cached
      ensures Valid()
      ensures full == if key in old(cached) then old(cached)[key] else built
      ensures cached == old(cached)[key := full]
      ensures Current(cfg, mode, key.0, key.1, full)
    {
      if key in cached {
        full := cached[key];
      } else {
        full := built;
        cached := cached[key := built];
      }
    }

    /** vgi/catalog_contents.go, `catalogContents` of a cacheable attachment: hit
        or miss, the response is the fresh one for this attachment and
        if-none-match. */
    method CatalogContents(attach: string, version: int, ifNoneMatch: Option<string>) returns (r: Option<Response>)
      requires Valid()
      modifies this`cached
      ensures Valid()
      ensures r == ComposedAnswer(cfg, mode, attach, version, ifNoneMatch)
      ensures forall key :: key in old(cached) ==> key in cached && cached[key] == old(cached)[key]
    {
      var name := CatalogOf(cfg.names, attach);
      Revalidates(cfg, mode, attach, version, ifNoneMatch);
      var full: Response;
      if (name, version) in cached {
        full := cached[(name, version)];
        assert Current(cfg, mode, name, version, full);
      } else {
        var built := DirectCatalogContents(cfg, mode, attach, version, None);
        if built.None? {
          return None;
        }
        forall other | CatalogOf(cfg.names, other) == name
          ensures ComposedAnswer(cfg, mode, other, version, None) == built
        {
          SameCatalogSameAnswer(cfg, mode, other, attach, version, None);
        }
        full := LoadOrStore((name, version), built.value);
      }
      if full.etag.Some? && ifNoneMatch.Some? && ifNoneMatch == full.etag {
        return Some(NotModifiedResponse(version, full.etag.value));
      }
      return Some(full);
    }
  }

  // ---- functionListing --------------------------------------------------------

  class FunctionListingCache {
    const cfg: Config
    var listings: map<(string, string, string), seq<Row>>
    var encoded: map<(string, nat), Option<Row>>

    ghost predicate Valid()
      reads this
    {
      && (forall key :: key in listings ==>
            && key.0 in cfg.schemas
            && BuildWhere(Keeps(key.1, key.2), cfg.build.functionRow, cfg.schemas[key.0].functions) ==
              Some(listings[key]))
      && (forall slot :: slot in encoded ==>
            && slot.0 in cfg.schemas && slot.1 < |cfg.schemas[slot.0].functions|
            && encoded[slot] == cfg.build.functionRow(cfg.schemas[slot.0].functions[slot.1]))
    }

    constructor (cfg: Config)
      ensures Valid() && this.cfg == cfg && listings == map[] && encoded == map[]
    {
      this.cfg := cfg;
      listings := map[];
      encoded := map[];
    }

    /** `encode`: each function is encoded at most once, failure included. */
    method Encode(schemaKey: string, i: nat) returns (row: Option<Row>)
      requires Valid() && schemaKey in cfg.schemas && i < |cfg.schemas[schemaKey].functions|
      modifies this`encoded
      ensures Valid()
      ensures row == cfg.build.functionRow(cfg.schemas[schemaKey].functions[i])
      ensures encoded == old(encoded)[(schemaKey, i) := row]
    {
      if (schemaKey, i) !in encoded {
        encoded := encoded[(schemaKey, i) := cfg.build.functionRow(cfg.schemas[schemaKey].functions[i])];
      }
      row := encoded[(schemaKey, i)];
    }

    method BuildListing(schemaKey: string, kind: string, catalogName: string) returns (r: Option<seq<Row>>)
      requires Valid() && schemaKey in cfg.schemas
      modifies this`encoded
      ensures Valid()
      ensures r == BuildWhere(Keeps(kind, catalogName), cfg.build.functionRow, cfg.schemas[schemaKey].functions)
    {
      var functions := cfg.schemas[schemaKey].functions;
      ghost var keep, build := Keeps(kind, catalogName), cfg.build.functionRow;
      var items: seq<Row> := [];
      for i := 0 to |functions|
        invariant Valid()
        invariant BuildWhere(keep, build, functions[..i]) == Some(items)
      {
        BuildOneMore(keep, build, functions, i);
        var f := functions[i];
        if !ListsFunction(kind, f.kind) || f.unlisted || (catalogName != "" && catalogName != f.home) {
          continue;
        }
        var data := Encode(schemaKey, i);
        if data.None? {
          BuildFails(keep, build, functions, i + 1);
          return None;
        }
        items := items + [data.value];
      }
      assert functions[..|functions|] == functions;
      return Some(items);
    }

    /** vgi/catalog_function_listing.go, `functionListing`: hit or miss, exactly
        the schema's functions of the requested type that the catalog owns, in
        registration order; nothing for an unknown schema, and a failed build is
        not cached. */
    method FunctionListing(schemaKey: string, requested: string, catalogName: string) returns (ok: bool,
                           r: Option<seq<Row>>)
      requires Valid()
      modifies this`listings, this`encoded
      ensures Valid()
      ensures ok <==> schemaKey in cfg.schemas
      ensures r == FunctionItems(cfg, schemaKey, requested, catalogName)
      ensures forall key :: key in old(listings) ==> key in listings && listings[key] == old(listings)[key]
    {
      if schemaKey !in cfg.schemas {
        return false, Some([]);
      }
      ok := true;
      var key := (schemaKey, FunctionListingKind(requested), catalogName);
      if key in listings {
        return true, Some(listings[key]);
      }
      r := BuildListing(schemaKey, key.1, catalogName);
      if r.Some? {
        listings := listings[key := r.value];
      }
    }
  }
}
