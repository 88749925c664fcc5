/** Which delta documents are accepted and what they do, with every key, literal and limit of the format
    written out (vgi/filter_v2.go). */
module FilterDocuments {
  import opened Wrappers
  import opened FilterExpr
  import opened FilterState

  /** The carrier batch and the document say what they must. */
  predicate Headed(scan: Scan, d: Delta) {
    && d.batchOk && d.jsonOk && d.context == scan.context
    && d.encoding == "vgi.filters.v2" && d.semantics == "vgi.duckdb.standard.v1" && d.kind == "delta"
    && !d.hasPredicates
  }

  /** `{"operation": "remove", "id": .., "revision": ..}` and nothing else. */
  predicate Removes(o: UpdateObject, id: string, revision: nat) {
    && o.keys == {"operation", "id", "revision"}
    && o.operation == Some("remove") && o.id == Some(id) && o.revision == Some(revision)
  }

  /** An upsert of an advisory predicate from one of the five sources, and nothing else. */
  predicate Upserts(o: UpdateObject, id: string, revision: nat) {
    && o.keys == {"operation", "id", "revision", "mode", "source", "expression"}
    && o.operation == Some("upsert") && o.id == Some(id) && o.revision == Some(revision)
    && o.mode == Some("advisory") && o.expression.Some?
    && (|| o.source == Some("query") || o.source == Some("join") || o.source == Some("top_n")
        || o.source == Some("split_refinement") || o.source == Some("other"))
  }

  predicate Names(scan: Scan, id: string) {
    1 <= |id| <= 128 && id !in scan.required
  }

  /** The ID is new, or known at a lower revision. */
  predicate Newer(s: State, id: string, revision: nat) {
    id !in s.revs || s.revs[id] < revision
  }

  function Removed(s: State, id: string, revision: nat): State {
    State(Without(s.preds, id), s.revs[id := revision])
  }

  function Upserted(s: State, id: string, revision: nat, e: V2Expr): State {
    State(Without(s.preds, id) + [Predicate(id, revision, Advisory, e)], s.revs[id := revision])
  }

  /** There is room for the ID. */
  predicate HasRoom(s: State, id: string) {
    id in s.revs || |s.revs| < 4096
  }

  lemma OneUpdate(d: Delta, o: UpdateObject)
    requires d.updates == [Some(o)]
    ensures |d.updates| == 1 && d.updates[0] == Some(o)
  {
  }

  lemma RoomExactly(s: State, id: string, revision: nat)
    requires |s.revs| <= 4096
    ensures |s.revs[id := revision]| <= 4096 <==> HasRoom(s, id)
  {
    assert s.revs[id := revision].Keys == s.revs.Keys + {id};
    assert |s.revs[id := revision]| == |s.revs.Keys + {id}| && |s.revs| == |s.revs.Keys|;
  }

  /** A removal is accepted exactly under these headers, for an ID of 1 to 128 characters that is not
      required and has room; a newer one takes the predicate out and leaves its tombstone, any other
      changes nothing. */
  lemma RemovalExactly(scan: Scan, s: State, d: Delta, o: UpdateObject, id: string, revision: nat)
    requires Valid(scan, s) && d.updates == [Some(o)] && Removes(o, id, revision)
    ensures var r := Apply(scan, s, d);
      && (r.Some? <==> Headed(scan, d) && Names(scan, id) && HasRoom(s, id))
      && (r.Some? ==> r.value.1 == [PredicateRevision(id, revision)])
      && (r.Some? ==> r.value.0 == if Newer(s, id, revision) then Removed(s, id, revision) else s)
  {
    OneUpdate(d, o);
    RoomExactly(s, id, revision);
    assert Steps(scan, s, d, 0) == Some(Progress(s, {}, []));
    assert [] + [PredicateRevision(id, revision)] == [PredicateRevision(id, revision)];
  }

  /** An upsert is accepted under the same conditions if it is not newer or its expression parses; a
      newer one puts its predicate at the end, replacing the one of that ID. */
  lemma UpsertExactly(scan: Scan, s: State, d: Delta, o: UpdateObject, id: string, revision: nat)
    requires Valid(scan, s) && d.updates == [Some(o)] && Upserts(o, id, revision)
    ensures var r, parsed := Apply(scan, s, d), scan.parse(o, d.payload);
      && (r.Some? <==>
            Headed(scan, d) && Names(scan, id) && HasRoom(s, id) && (Newer(s, id, revision) ==> parsed.Some?))
      && (r.Some? ==> r.value.1 == [PredicateRevision(id, revision)])
      && (r.Some? ==> r.value.0 == if Newer(s, id, revision) then Upserted(s, id, revision, parsed.value) else s)
  {
    OneUpdate(d, o);
    RoomExactly(s, id, revision);
    assert Steps(scan, s, d, 0) == Some(Progress(s, {}, []));
    assert [] + [PredicateRevision(id, revision)] == [PredicateRevision(id, revision)];
  }

  lemma ShapeExactly(o: UpdateObject)
    ensures ShapeOk(Some(o)) ==> exists id, revision :: Removes(o, id, revision) || Upserts(o, id, revision)
  {
    if ShapeOk(Some(o)) { assert Removes(o, o.id.value, o.revision.value) || Upserts(o, o.id.value, o.revision.value); }
  }

  /** Nothing else is an update: a document with any other object is refused. */
  lemma OtherObjectsAreRefused(scan: Scan, s: State, d: Delta, k: nat)
    requires k < |d.updates|
    requires d.updates[k].Some? ==>
      forall id, revision :: !Removes(d.updates[k].value, id, revision) && !Upserts(d.updates[k].value, id, revision)
    ensures Apply(scan, s, d).None?
  {
    if d.updates[k].Some? { ShapeExactly(d.updates[k].value); }
    if Steps(scan, s, d, |d.updates|).Some? { StepsExact(scan, s, d, |d.updates|); }
  }

  /** Nor is an ID named twice or an ID that is required, and the headers hold for any number of updates. */
  lemma RepeatedOrRequiredIsRefused(scan: Scan, s: State, d: Delta, j: nat, k: nat)
    requires j < |d.updates| && k < |d.updates| && d.updates[j].Some? && d.updates[k].Some?
    requires d.updates[j].value.id.Some?
    requires || !Headed(scan, d)
             || d.updates[j].value.id.value in scan.required
             || (j != k && d.updates[j].value.id == d.updates[k].value.id)
    ensures Apply(scan, s, d).None?
  {
    if Steps(scan, s, d, |d.updates|).Some? { StepsExact(scan, s, d, |d.updates|); }
  }
}
