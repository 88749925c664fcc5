/**
  The protocol half of `catalog_contents` that handlers and the default
  composition share (vgi/catalog_contents.go, `answerCatalogContents` and
  `checkContentsPaths`), and exactly which snapshots it serves.
 */
module CatalogAnswer {
  import opened Wrappers
  import opened CatalogBatches
  import opened CatalogStreams
  import opened CatalogCodec
  import opened StableSort
  import opened CatalogListing
  import opened CatalogContents

  lemma HasKeySnoc(c: Casing, entries: seq<Entry>, e: Entry, key: string)
    ensures HasKey(c, entries + [e], key) <==> HasKey(c, entries, key) || PathKey(c, e.path) == key
  {
    var all := entries + [e];
    if HasKey(c, entries, key) {
      var i :| 0 <= i < |entries| && PathKey(c, entries[i].path) == key;
      assert all[i] == entries[i];
    }
    assert all[|entries|] == e;
  }

  ghost predicate KeysAre(c: Casing, entries: seq<Entry>, keys: set<string>) {
    forall key :: key in keys <==> HasKey(c, entries, key)
  }

  method CollectKeys(c: Casing, schemas: seq<Entry>, verifyItems: bool) returns (ok: bool, keys: set<string>)
    ensures ok <==> forall i :: 0 <= i < |schemas| ==> EntryPathOk(c, schemas, i, verifyItems)
    ensures ok ==> KeysAre(c, schemas, keys)
  {
    keys := {};
    for i := 0 to |schemas|
      invariant KeysAre(c, schemas[..i], keys)
      invariant forall j :: 0 <= j < i ==> EntryPathOk(c, schemas, j, verifyItems)
    {
      var path := schemas[i].path;
      var key := PathKey(c, path);
      if path == [] || key in keys || (verifyItems && schemas[i].schema.path != path) {
        assert !EntryPathOk(c, schemas, i, verifyItems);
        return false, keys;
      }
      assert schemas[..i + 1] == schemas[..i] + [schemas[i]];
      forall k
        ensures k in keys + {key} <==> HasKey(c, schemas[..i + 1], k)
      {
        HasKeySnoc(c, schemas[..i], schemas[i], k);
      }
      keys := keys + {key};
    }
    assert schemas[..|schemas|] == schemas;
    return true, keys;
  }

  /** vgi/catalog_contents.go, `checkContentsPaths`. */
  method CheckContentsPaths(c: Casing, schemas: seq<Entry>, verifyItems: bool) returns (ok: bool)
    ensures ok <==> PathsOk(c, schemas, verifyItems)
  {
    var keys: set<string>;
    ok, keys := CollectKeys(c, schemas, verifyItems);
    if !ok {
      return false;
    }
    for i := 0 to |schemas|
      invariant forall j :: 0 <= j < i ==> ParentOk(c, schemas, j)
    {
      var path := schemas[i].path;
      if |path| > 1 && PathKey(c, path[..|path| - 1]) !in keys {
        assert !ParentOk(c, schemas, i);
        return false;
      }
    }
    return true;
  }

  /** The etag mode and the revalidation of an encoded response. */
  method ApplyEtag(mode: EtagMode, encoded: Response, ifNoneMatch: Option<string>) returns (r: Response)
    requires !encoded.notModified
    ensures r == Finish(mode, encoded.version, encoded.etag, ifNoneMatch, encoded.streams)
  {
    r := encoded;
    if r.etag.None? && mode.contentHash {
      r := r.(etag := Some(mode.digest(r.version, r.streams)));
    }
    if r.etag.Some? && ifNoneMatch.Some? && r.etag == ifNoneMatch {
      r := NotModifiedResponse(r.version, r.etag.value);
    }
  }

  /** vgi/catalog_contents.go, `answerCatalogContents`, given the snapshot of
      the handler or of the default composition. */
  method AnswerCatalogContents(c: Casing, mode: EtagMode, given: Snapshot, fromHandler: bool, version: int,
                               ifNoneMatch: Option<string>)
    returns (r: Option<Response>)
    requires Shaped(given.schemas)
    ensures r == Answer(c, mode, given, fromHandler, version, ifNoneMatch)
  {
    if given.notModified {
      if given.etag.None? || ifNoneMatch.None? || given.etag != ifNoneMatch || |given.schemas| != 0 {
        return None;
      }
      return Some(NotModifiedResponse(version, given.etag.value));
    }
    var ok := CheckContentsPaths(c, given.schemas, fromHandler);
    if !ok {
      return None;
    }
    SortedIsShaped(DepthOrder(), given.schemas);
    var schemas := Sort(DepthOrder(), given.schemas);
    var encoded := EncodeCatalogStreams(c, version, given.etag, schemas);
    if encoded.None? {
      return None;
    }
    ServedStreams(AllKinds(schemas), encoded.value.streams);
    var response := ApplyEtag(mode, encoded.value, ifNoneMatch);
    return Some(response);
  }

  lemma ServedStreams(rows: seq<seq<Row>>, streams: seq<Stream>)
    requires AllServed(rows, streams)
    ensures streams == StreamsOf(rows)
  {
    forall k | 0 <= k < |rows|
      ensures streams[k] == StreamOf(rows[k])
    {
      ServedExact(rows[k], streams[k]);
    }
  }

  // ---- Which snapshots are served ------------------------------------------------

  function EntryKey(c: Casing): Entry -> string {
    (e: Entry) => PathKey(c, e.path)
  }

  predicate HasParent(c: Casing, entries: seq<Entry>, path: Path)
    requires |path| > 1
  {
    exists j :: 0 <= j < |entries| && KeyOf(c, entries[j].path) == KeyOf(c, path[..|path| - 1])
  }

  /** Every nested schema has its parent in the snapshot, compared component by
      component. */
  predicate ParentsPresent(c: Casing, entries: seq<Entry>) {
    forall i :: 0 <= i < |entries| && |entries[i].path| > 1 ==> HasParent(c, entries, entries[i].path)
  }

  lemma PathsAreDistinct(c: Casing, entries: seq<Entry>)
    requires PathsOk(c, entries, true)
    ensures Distinct(EntryKey(c), entries)
  {
    forall i, j | 0 <= i < j < |entries|
      ensures PathKey(c, entries[i].path) != PathKey(c, entries[j].path)
    {
      assert EntryPathOk(c, entries, j, true);
      assert entries[..j][i] == entries[i];
    }
  }

  /** Sorted by depth, each schema is new and follows its parent. */
  lemma SortedSchemaIsOk(c: Casing, entries: seq<Entry>, sorted: seq<Entry>, i: nat)
    requires Distinct(EntryKey(c), sorted) && Ordered(DepthOrder(), sorted)
    requires forall e :: e in sorted ==> e.path != [] && e.path == e.schema.path
    requires forall e :: e in entries ==> e in sorted
    requires i < |sorted| && (|sorted[i].path| > 1 ==> HasParent(c, entries, sorted[i].path))
    ensures SchemaOk(c, SchemaRows(sorted)[..i], SchemaRows(sorted)[i])
  {
    var rows := SchemaRows(sorted);
    var path := sorted[i].path;
    assert sorted[i] in sorted;
    forall j | 0 <= j < i
      ensures KeyOf(c, rows[..i][j].path) != KeyOf(c, path)
    {
      assert sorted[j] in sorted && rows[..i][j] == sorted[j].schema;
      assert EntryKey(c)(sorted[j]) != EntryKey(c)(sorted[i]);
    }
    if |path| > 1 {
      var q :| 0 <= q < |entries| && KeyOf(c, entries[q].path) == KeyOf(c, path[..|path| - 1]);
      assert entries[q] in entries;
      var j :| 0 <= j < |sorted| && sorted[j] == entries[q];
      assert |KeyOf(c, sorted[j].path)| == |path| - 1;
      assert DepthOrder()(sorted[j], sorted[i]);
      assert j < i;
      assert rows[..i][j] == sorted[j].schema && sorted[j] in sorted;
    }
  }

  /** Every object row is in the schema and list its own columns name. */
  predicate ListsFit(c: Casing, e: Entry) {
    && |e.lists| == SLOTS
    && forall slot, i :: 0 <= slot < SLOTS && 0 <= i < |e.lists[slot]| ==> RowFits(c, e, slot, e.lists[slot][i])
  }

  predicate AllListsFit(c: Casing, entries: seq<Entry>) {
    forall i :: 0 <= i < |entries| ==> ListsFit(c, entries[i])
  }

  lemma SameElements(before: (Entry, Entry) -> bool, entries: seq<Entry>, e: Entry)
    ensures e in Sort(before, entries) <==> e in entries
  {
    SortKeepsElements(before, entries);
    assert e in entries <==> e in multiset(entries);
    assert e in Sort(before, entries) <==> e in multiset(Sort(before, entries));
  }

  /** Sorted by depth, the schemas of a checked snapshot with all parents are
      new and parent-first. */
  lemma SortedSchemasAreOk(c: Casing, entries: seq<Entry>)
    requires PathsOk(c, entries, true) && ParentsPresent(c, entries)
    ensures SchemasOk(c, SchemaRows(Sort(DepthOrder(), entries)))
  {
    var sorted := Sort(DepthOrder(), entries);
    SortOrders(DepthOrder(), entries);
    PathsAreDistinct(c, entries);
    SortKeepsDistinct(DepthOrder(), EntryKey(c), entries);
    forall e
      ensures e in sorted <==> e in entries
    {
      SameElements(DepthOrder(), entries, e);
    }
    forall e | e in sorted
      ensures e.path != [] && e.path == e.schema.path
    {
      var i :| 0 <= i < |entries| && entries[i] == e;
      assert EntryPathOk(c, entries, i, true);
    }
    forall i | 0 <= i < |sorted|
      ensures SchemaOk(c, SchemaRows(sorted)[..i], SchemaRows(sorted)[i])
    {
      assert sorted[i] in sorted;
      var k :| 0 <= k < |entries| && entries[k] == sorted[i];
      SortedSchemaIsOk(c, entries, sorted, i);
    }
  }

  /** Which rows fit does not depend on the order of the schemas. */
  lemma SortedFits(c: Casing, entries: seq<Entry>)
    requires PathsOk(c, entries, true)
    ensures AllEntriesFit(c, Sort(DepthOrder(), entries)) <==> AllListsFit(c, entries)
  {
    var sorted := Sort(DepthOrder(), entries);
    forall e
      ensures e in sorted <==> e in entries
    {
      SameElements(DepthOrder(), entries, e);
    }
    if AllListsFit(c, entries) {
      forall i | 0 <= i < |sorted| ensures EntryFits(c, sorted[i]) {
        assert sorted[i] in sorted;
        var k :| 0 <= k < |entries| && entries[k] == sorted[i];
        assert EntryPathOk(c, entries, k, true) && ListsFit(c, entries[k]);
      }
    }
    if AllEntriesFit(c, sorted) {
      forall i | 0 <= i < |entries| ensures ListsFit(c, entries[i]) {
        assert entries[i] in entries;
        var k :| 0 <= k < |sorted| && sorted[k] == entries[i];
        assert EntryFits(c, sorted[k]);
      }
    }
  }

  lemma SortedKnows(c: Casing, entries: seq<Entry>, key: Path)
    ensures Known(c, SchemaRows(Sort(DepthOrder(), entries)), key) <==> Known(c, SchemaRows(entries), key)
  {
    var sorted := Sort(DepthOrder(), entries);
    var a, b := SchemaRows(sorted), SchemaRows(entries);
    if Known(c, a, key) {
      var j :| 0 <= j < |a| && KeyOf(c, a[j].path) == key;
      SameElements(DepthOrder(), entries, sorted[j]);
      var q :| 0 <= q < |entries| && entries[q] == sorted[j];
      assert KeyOf(c, b[q].path) == key;
    }
    if Known(c, b, key) {
      var j :| 0 <= j < |b| && KeyOf(c, b[j].path) == key;
      SameElements(DepthOrder(), entries, entries[j]);
      var q :| 0 <= q < |sorted| && sorted[q] == entries[j];
      assert KeyOf(c, a[q].path) == key;
    }
  }

  lemma SameRowsKnown(c: Casing, entries: seq<Entry>, slot: nat, rows: seq<Row>)
    ensures ListKnown(c, SchemaRows(Sort(DepthOrder(), entries)), slot, rows) <==>
      ListKnown(c, SchemaRows(entries), slot, rows)
  {
    forall j | 0 <= j < |rows|
      ensures ObjectOk(c, SchemaRows(Sort(DepthOrder(), entries)), Tagged(KindOf(slot), rows[j])) <==>
              ObjectOk(c, SchemaRows(entries), Tagged(KindOf(slot), rows[j]))
    {
      SortedKnows(c, entries, KeyOf(c, rows[j].path));
    }
  }

  /** Nor does which rows are known. */
  lemma SortedRowsKnown(c: Casing, entries: seq<Entry>)
    requires Shaped(entries) && Shaped(Sort(DepthOrder(), entries))
    ensures var sorted := Sort(DepthOrder(), entries);
            RowsKnown(c, SchemaRows(sorted), sorted) <==> RowsKnown(c, SchemaRows(entries), entries)
  {
    var sorted := Sort(DepthOrder(), entries);
    if RowsKnown(c, SchemaRows(entries), entries) {
      forall i, slot | 0 <= i < |sorted| && 0 <= slot < SLOTS
        ensures ListKnown(c, SchemaRows(sorted), slot, sorted[i].lists[slot])
      {
        SameElements(DepthOrder(), entries, sorted[i]);
        var k :| 0 <= k < |entries| && entries[k] == sorted[i];
        assert ListKnown(c, SchemaRows(entries), slot, entries[k].lists[slot]);
        SameRowsKnown(c, entries, slot, sorted[i].lists[slot]);
      }
    }
    if RowsKnown(c, SchemaRows(sorted), sorted) {
      forall i, slot | 0 <= i < |entries| && 0 <= slot < SLOTS
        ensures ListKnown(c, SchemaRows(entries), slot, entries[i].lists[slot])
      {
        SameElements(DepthOrder(), entries, entries[i]);
        var k :| 0 <= k < |sorted| && sorted[k] == entries[i];
        assert ListKnown(c, SchemaRows(sorted), slot, sorted[k].lists[slot]);
        SameRowsKnown(c, entries, slot, entries[i].lists[slot]);
      }
    }
  }

  lemma ValidHasParents(c: Casing, entries: seq<Entry>)
    requires SchemasOk(c, SchemaRows(Sort(DepthOrder(), entries))) && PathsOk(c, entries, true)
    ensures ParentsPresent(c, entries)
  {
    var sorted := Sort(DepthOrder(), entries);
    var rows := SchemaRows(sorted);
    forall i | 0 <= i < |entries| && |entries[i].path| > 1
      ensures HasParent(c, entries, entries[i].path)
    {
      SameElements(DepthOrder(), entries, entries[i]);
      var k :| 0 <= k < |sorted| && sorted[k] == entries[i];
      assert EntryPathOk(c, entries, i, true);
      var path := entries[i].path;
      assert SchemaOk(c, rows[..k], rows[k]);
      var j :| 0 <= j < k && KeyOf(c, rows[..k][j].path) == KeyOf(c, path[..|path| - 1]);
      SameElements(DepthOrder(), entries, sorted[j]);
      var q :| 0 <= q < |entries| && entries[q] == sorted[j];
      assert EntryPathOk(c, entries, q, true);
    }
  }

  /** Paths are unique, not empty and those of the schema rows, all parents are
      present, and every object row names a schema of the snapshot and a known
      subtype. */
  predicate Servable(c: Casing, entries: seq<Entry>)
    requires Shaped(entries)
  {
    PathsOk(c, entries, true) && ParentsPresent(c, entries) && RowsKnown(c, SchemaRows(entries), entries)
  }

  /** The rows of a snapshot regrouped by what their own columns say. */
  function Regrouped(c: Casing, entries: seq<Entry>): seq<Entry>
    requires Shaped(entries)
  {
    Grouped(c, SchemaRows(entries), Objects(AllKinds(entries), KINDS))
  }

  lemma SortedDecodes(c: Casing, entries: seq<Entry>)
    requires Shaped(entries) && Shaped(Sort(DepthOrder(), entries)) && PathsOk(c, entries, true)
    ensures Decode(c, AllKinds(Sort(DepthOrder(), entries))) ==
            if Servable(c, entries)
            then Some(Regrouped(c, Sort(DepthOrder(), entries))) else None
  {
    var sorted := Sort(DepthOrder(), entries);
    EncodedDecodes(c, sorted);
    SortedRowsKnown(c, entries);
    if ParentsPresent(c, entries) {
      SortedSchemasAreOk(c, entries);
    } else if SchemasOk(c, SchemaRows(sorted)) {
      ValidHasParents(c, entries);
    }
  }

  /** Regrouping changes nothing exactly when every row was filed where it
      belongs. */
  lemma RegroupedIsSorted(c: Casing, entries: seq<Entry>)
    requires Shaped(entries) && Shaped(Sort(DepthOrder(), entries)) && Servable(c, entries)
    ensures Regrouped(c, Sort(DepthOrder(), entries)) == Sort(DepthOrder(), entries) <==> AllListsFit(c, entries)
  {
    var sorted := Sort(DepthOrder(), entries);
    SortedDecodes(c, entries);
    SortedSchemasAreOk(c, entries);
    SortedFits(c, entries);
    RoundTripExact(c, sorted);
  }

  /** Which handler snapshots are served, and as what: a snapshot is accepted
      exactly when its paths are unique and not empty, equal those of its schema
      rows, all parents are present and every object row names a schema of the
      snapshot and a known subtype.  A client then decodes the schemas parents
      first, each row in the schema and list its own columns name, which is how
      the handler filed it exactly when it filed every row there; or, when the
      etag it already has was confirmed, nothing. */
  lemma AnswerExact(c: Casing, mode: EtagMode, given: Snapshot, version: int, ifNoneMatch: Option<string>)
    requires Shaped(given.schemas) && !given.notModified
    ensures Shaped(Sort(DepthOrder(), given.schemas))
    ensures var r := Answer(c, mode, given, true, version, ifNoneMatch);
            var sorted := Sort(DepthOrder(), given.schemas);
            && (r.Some? <==> Servable(c, given.schemas))
            && (r.Some? ==> (r.value.notModified <==> r.value.etag.Some? && r.value.etag == ifNoneMatch))
            && (r.Some? ==>
                  DecodeResponse(c, r.value) == Some(if r.value.notModified then [] else Regrouped(c, sorted)))
            && (r.Some? ==> (Regrouped(c, sorted) == sorted <==> AllListsFit(c, given.schemas)))
  {
    SortedIsShaped(DepthOrder(), given.schemas);
    if PathsOk(c, given.schemas, true) {
      SortedDecodes(c, given.schemas);
      StreamsKeepRows(AllKinds(Sort(DepthOrder(), given.schemas)));
      if Servable(c, given.schemas) {
        RegroupedIsSorted(c, given.schemas);
      }
    }
  }

  // ---- Path keys -------------------------------------------------------------------

  predicate NulFree(parts: seq<string>) {
    forall i :: 0 <= i < |parts| ==> '\0' !in parts[i]
  }

  lemma {:induction false} NameEndsAtNul(x: string, rest: string)
    requires '\0' !in x
    ensures NameOf(x) == x && NameOf(x + ['\0'] + rest) == x
  {
    if x != [] {
      NameEndsAtNul(x[1..], rest);
      assert (x + ['\0'] + rest)[1..] == x[1..] + ['\0'] + rest;
    }
  }

  lemma JoinHead(parts: seq<string>)
    requires parts != [] && NulFree(parts)
    ensures NameOf(Join(parts)) == parts[0]
    ensures |parts| == 1 <==> Join(parts) == parts[0]
    ensures |parts| > 1 ==> |Join(parts)| > |parts[0]| && Join(parts)[|parts[0]| + 1..] == Join(parts[1..])
  {
    NameEndsAtNul(parts[0], Join(parts[1..]));
  }

  lemma {:induction false} JoinIsInjective(a: seq<string>, b: seq<string>)
    requires a != [] && b != [] && NulFree(a) && NulFree(b) && Join(a) == Join(b)
    ensures a == b
  {
    JoinHead(a);
    JoinHead(b);
    if |a| > 1 {
      JoinIsInjective(a[1..], b[1..]);
      assert a == [a[0]] + a[1..] && b == [b[0]] + b[1..];
    }
  }

  /** With no NUL in a component, the joined keys of the path check mean the
      same as whole paths: the check alone decides. */
  lemma CheckedParentsArePresent(c: Casing, entries: seq<Entry>, verifyItems: bool)
    requires PathsOk(c, entries, verifyItems)
    requires forall i :: 0 <= i < |entries| ==> NulFree(KeyOf(c, entries[i].path))
    ensures ParentsPresent(c, entries)
  {
    forall i | 0 <= i < |entries| && |entries[i].path| > 1
      ensures HasParent(c, entries, entries[i].path)
    {
      assert ParentOk(c, entries, i);
      var path := entries[i].path;
      var parent := path[..|path| - 1];
      var j :| 0 <= j < |entries| && PathKey(c, entries[j].path) == PathKey(c, parent);
      assert EntryPathOk(c, entries, j, verifyItems);
      assert KeyOf(c, parent) == KeyOf(c, path)[..|parent|];
      JoinIsInjective(KeyOf(c, entries[j].path), KeyOf(c, parent));
    }
  }
}
