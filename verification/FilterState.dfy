/** The dynamic-filter state of one scan and the deltas that change it (vgi/filter_v2.go):
    a last-writer-wins register per predicate ID, with tombstones, required predicates
    and an evaluation order, committed all-or-nothing. */
module FilterState {
  import opened Wrappers
  import opened FilterExpr

  const MAX_IDS: nat := 4096
  const MAX_SNAPSHOT: nat := 1024

  datatype Mode = Required | Advisory

  datatype Predicate = Predicate(id: string, revision: nat, mode: Mode, expr: V2Expr)

  /** One element of a delta's `updates`, as a decoded JSON object: its key set and what each
      member decodes to, `None` where it is missing or has the wrong type. */
  datatype UpdateObject = UpdateObject(
    keys: set<string>,
    operation: Option<string>,
    id: Option<string>,
    revision: Option<nat>,
    mode: Option<string>,
    source: Option<string>,
    expression: Option<string>)

  /** A delta document. `batchOk` is "the carrier batch has the v2 layout", `jsonOk` is
      "the document decodes strictly"; an update that does not decode is `None`.
      `payload` holds the batch's value, type and artifact columns. */
  datatype Delta = Delta(
    batchOk: bool,
    context: string,
    jsonOk: bool,
    encoding: string,
    semantics: string,
    kind: string,
    hasPredicates: bool,
    updates: seq<Option<UpdateObject>>,
    payload: string)

  /** What is fixed for the whole scan: its evaluation context, the IDs the snapshot
      requires, and the expression parser, a partial function of update and payload. */
  datatype Scan = Scan(
    context: string,
    required: set<string>,
    parse: (UpdateObject, string) -> Option<V2Expr>)

  /** The part of `PushdownFilters` that a delta changes. */
  datatype State = State(preds: seq<Predicate>, revs: map<string, nat>)

  datatype PredicateRevision = PredicateRevision(id: string, revision: nat)

  // ---------------------------------------------------------------------------
  // Checks that do not depend on the state
  // ---------------------------------------------------------------------------

  const SOURCES: set<string> := {"query", "join", "top_n", "split_refinement", "other"}
  const REMOVE_KEYS: set<string> := {"operation", "id", "revision"}
  const UPSERT_KEYS: set<string> := {"operation", "id", "revision", "mode", "source", "expression"}

  predicate HeaderOk(scan: Scan, d: Delta) {
    && d.batchOk
    && d.context == scan.context
    && d.jsonOk
    && d.encoding == "vgi.filters.v2"
    && d.semantics == "vgi.duckdb.standard.v1"
    && d.kind == "delta"
    && !d.hasPredicates
  }

  /** The shape checks made on every update, stale ones included. */
  predicate ShapeOk(u: Option<UpdateObject>) {
    && u.Some?
    && var o := u.value;
    && o.operation.Some?
    && o.id.Some? && 0 < |o.id.value| <= 128
    && o.revision.Some?
    && (|| (o.operation.value == "remove" && o.keys == REMOVE_KEYS)
        || (o.operation.value == "upsert" && o.keys == UPSERT_KEYS
            && o.mode == Some("advisory") && o.source.Some? && o.source.value in SOURCES && o.expression.Some?))
  }

  function IdOf(u: Option<UpdateObject>): string
    requires ShapeOk(u)
  {
    u.value.id.value
  }

  function RevisionOf(u: Option<UpdateObject>): nat
    requires ShapeOk(u)
  {
    u.value.revision.value
  }

  predicate IsUpsert(u: Option<UpdateObject>)
    requires ShapeOk(u)
  {
    u.value.operation.value == "upsert"
  }

  /** The document checks that depend only on the scan: header, shapes, no ID twice, no required ID. */
  ghost predicate WellFormed(scan: Scan, d: Delta) {
    && HeaderOk(scan, d)
    && (forall i :: 0 <= i < |d.updates| ==> ShapeOk(d.updates[i]))
    && (forall i, j :: 0 <= i < j < |d.updates| ==> IdOf(d.updates[i]) != IdOf(d.updates[j]))
    && (forall i :: 0 <= i < |d.updates| ==> IdOf(d.updates[i]) !in scan.required)
  }

  // ---------------------------------------------------------------------------
  // The transition
  // ---------------------------------------------------------------------------

  /** Is an update with this ID and revision newer than what the state knows? */
  predicate Fresh(revs: map<string, nat>, id: string, revision: nat) {
    id in revs ==> revs[id] < revision
  }

  /** The list with every predicate of this ID taken out. */
  function Without(preds: seq<Predicate>, id: string): seq<Predicate> {
    if preds == [] then []
    else
      var last := preds[|preds| - 1];
      Without(preds[..|preds| - 1], id) + (if last.id != id then [last] else [])
  }

  /** One well-shaped update, or `None` when a fresh upsert does not parse. */
  function Update(scan: Scan, s: State, u: Option<UpdateObject>, payload: string): Option<State>
    requires ShapeOk(u)
  {
    var id, revision := IdOf(u), RevisionOf(u);
    if !Fresh(s.revs, id, revision) then Some(s)
    else if !IsUpsert(u) then Some(State(Without(s.preds, id), s.revs[id := revision]))
    else
      match scan.parse(u.value, payload)
      case None => None
      case Some(e) =>
        Some(State(Without(s.preds, id) + [Predicate(id, revision, Advisory, e)], s.revs[id := revision]))
  }

  datatype Progress = Progress(state: State, seen: set<string>, carried: seq<PredicateRevision>)

  /** The first `n` updates of a delta, or `None` at the first one that is refused. */
  function Steps(scan: Scan, s: State, d: Delta, n: nat): (r: Option<Progress>)
    requires n <= |d.updates|
    decreases n
  {
    if n == 0 then Some(Progress(s, {}, []))
    else
      match Steps(scan, s, d, n - 1)
      case None => None
      case Some(p) =>
        var u := d.updates[n - 1];
        if !ShapeOk(u) || IdOf(u) in p.seen || IdOf(u) in scan.required then None
        else
          match Update(scan, p.state, u, d.payload)
          case None => None
          case Some(next) =>
            Some(Progress(next, p.seen + {IdOf(u)}, p.carried + [PredicateRevision(IdOf(u), RevisionOf(u))]))
  }

  /** applyDelta: the new state and the carried (id, revision) pairs, or `None` for a refused delta. */
  function Apply(scan: Scan, s: State, d: Delta): Option<(State, seq<PredicateRevision>)> {
    if !HeaderOk(scan, d) then None
    else
      match Steps(scan, s, d, |d.updates|)
      case None => None
      case Some(p) => if |p.state.revs| > MAX_IDS then None else Some((p.state, p.carried))
  }

  // ---------------------------------------------------------------------------
  // The register semantics
  // ---------------------------------------------------------------------------

  /** What an update would install: nothing (a tombstone), an expression, or one that does not parse. */
  datatype Body = Tombstone | Live(expr: V2Expr) | Unparsable

  /** An update as a write to the register `id`. */
  datatype Write = Write(id: string, revision: nat, body: Body)

  function WriteOf(scan: Scan, u: Option<UpdateObject>, payload: string): Write
    requires ShapeOk(u)
  {
    var body :=
      if !IsUpsert(u) then Tombstone
      else match scan.parse(u.value, payload) case None => Unparsable case Some(e) => Live(e);
    Write(IdOf(u), RevisionOf(u), body)
  }

  /** Last writer wins: a write lands only when its revision is newer, and moves its ID to the end. */
  function Put(s: State, w: Write): State {
    if !Fresh(s.revs, w.id, w.revision) then s
    else
      State(Without(s.preds, w.id) +
            (if w.body.Live? then [Predicate(w.id, w.revision, Advisory, w.body.expr)] else []),
            s.revs[w.id := w.revision])
  }

  function PutAll(s: State, ws: seq<Write>): State {
    if ws == [] then s else Put(PutAll(s, ws[..|ws| - 1]), ws[|ws| - 1])
  }

  /** The writes of a delta, in document order. */
  ghost function Writes(scan: Scan, d: Delta): (ws: seq<Write>)
    requires forall i :: 0 <= i < |d.updates| ==> ShapeOk(d.updates[i])
    ensures |ws| == |d.updates|
    ensures forall i :: 0 <= i < |ws| ==> ws[i] == WriteOf(scan, d.updates[i], d.payload)
  {
    seq(|d.updates|, i requires 0 <= i < |d.updates| => WriteOf(scan, d.updates[i], d.payload))
  }

  ghost function WrittenIds(ws: seq<Write>): set<string> {
    set i | 0 <= i < |ws| :: ws[i].id
  }

  /** The update needs no parse (a removal, or not newer than `revs`) or its expression parses. */
  predicate InstallsCleanly(scan: Scan, revs: map<string, nat>, u: Option<UpdateObject>, payload: string)
    requires ShapeOk(u)
  {
    IsUpsert(u) && Fresh(revs, IdOf(u), RevisionOf(u)) ==> scan.parse(u.value, payload).Some?
  }

  /** Every fresh upsert of the delta parses. */
  ghost predicate FreshUpsertsParse(scan: Scan, revs: map<string, nat>, d: Delta)
    requires WellFormed(scan, d)
  {
    forall i :: 0 <= i < |d.updates| ==> InstallsCleanly(scan, revs, d.updates[i], d.payload)
  }

  ghost function CarriedBy(scan: Scan, d: Delta): (r: seq<PredicateRevision>)
    requires WellFormed(scan, d)
    ensures |r| == |d.updates|
  {
    seq(|d.updates|, i requires 0 <= i < |d.updates| => PredicateRevision(IdOf(d.updates[i]), RevisionOf(d.updates[i])))
  }

  // ---------------------------------------------------------------------------
  // Facts about writes
  // ---------------------------------------------------------------------------

  lemma PutAllSplit(s: State, a: seq<Write>, b: seq<Write>)
    ensures PutAll(s, a + b) == PutAll(PutAll(s, a), b)
  {
    if b == [] {
      assert a + b == a;
    } else {
      assert (a + b)[..|a + b| - 1] == a + b[..|b| - 1];
      PutAllSplit(s, a, b[..|b| - 1]);
    }
  }

  /** Some write of `ws` carries this ID at this revision. */
  ghost predicate Carries(ws: seq<Write>, id: string, revision: nat) {
    exists i :: 0 <= i < |ws| && ws[i].id == id && ws[i].revision == revision
  }

  /** `r` knows the IDs of `base` and of the writes, each at the highest revision it was seen with. */
  ghost predicate Maxima(base: map<string, nat>, ws: seq<Write>, r: map<string, nat>) {
    && r.Keys == base.Keys + WrittenIds(ws)
    && (forall id :: id in base ==> base[id] <= r[id])
    && (forall i :: 0 <= i < |ws| ==> ws[i].revision <= r[ws[i].id])
    && (forall id :: id in r ==> (id in base && r[id] == base[id]) || Carries(ws, id, r[id]))
  }

  lemma OneMoreWritten(ws: seq<Write>, w: Write)
    ensures WrittenIds(ws + [w]) == WrittenIds(ws) + {w.id}
  {
    assert forall i :: 0 <= i < |ws| ==> (ws + [w])[i] == ws[i];
    assert (ws + [w])[|ws|] == w;
  }

  lemma CarriesOneMore(ws: seq<Write>, w: Write, id: string, revision: nat)
    ensures Carries(ws + [w], id, revision) <==> Carries(ws, id, revision) || (w.id == id && w.revision == revision)
  {
    CarriesMore(ws, [w], id, revision);
    if w.id == id && w.revision == revision { assert [w][0].id == id; }
  }

  lemma MaximaOneMore(base: map<string, nat>, ws: seq<Write>, w: Write, r: map<string, nat>)
    requires Maxima(base, ws, r)
    ensures Maxima(base, ws + [w], if Fresh(r, w.id, w.revision) then r[w.id := w.revision] else r)
  {
    var r' := if Fresh(r, w.id, w.revision) then r[w.id := w.revision] else r;
    OneMoreWritten(ws, w);
    forall id | id in r' ensures (id in base && r'[id] == base[id]) || Carries(ws + [w], id, r'[id]) {
      CarriesOneMore(ws, w, id, r'[id]);
    }
  }

  /** After any writes, each revision is the maximum of the old one and all those written. */
  lemma {:induction false} RevisionsAreMaxima(s: State, ws: seq<Write>)
    ensures Maxima(s.revs, ws, PutAll(s, ws).revs)
  {
    if ws != [] {
      var n := |ws| - 1;
      RevisionsAreMaxima(s, ws[..n]);
      MaximaOneMore(s.revs, ws[..n], ws[n], PutAll(s, ws[..n]).revs);
      assert ws[..n] + [ws[n]] == ws;
    }
  }

  lemma CarriesMore(a: seq<Write>, b: seq<Write>, id: string, revision: nat)
    ensures Carries(a + b, id, revision) <==> Carries(a, id, revision) || Carries(b, id, revision)
  {
    if Carries(a, id, revision) {
      var i :| 0 <= i < |a| && a[i].id == id && a[i].revision == revision;
      assert (a + b)[i] == a[i];
    }
    if Carries(b, id, revision) {
      var i :| 0 <= i < |b| && b[i].id == id && b[i].revision == revision;
      assert (a + b)[|a| + i] == b[i];
    }
  }

  // ---------------------------------------------------------------------------
  // What a delta does
  // ---------------------------------------------------------------------------

  /** Freshness inside a well-formed delta is freshness at its start, as no ID occurs twice. */
  lemma FreshnessIsAtStart(scan: Scan, s: State, d: Delta, n: nat)
    requires WellFormed(scan, d) && n < |d.updates|
    ensures Fresh(PutAll(s, Writes(scan, d)[..n]).revs, IdOf(d.updates[n]), RevisionOf(d.updates[n]))
       <==> Fresh(s.revs, IdOf(d.updates[n]), RevisionOf(d.updates[n]))
  {
    UnwrittenKeepsRevision(s, Writes(scan, d)[..n], IdOf(d.updates[n]));
  }

  lemma {:induction false} UnwrittenKeepsRevision(s: State, ws: seq<Write>, id: string)
    requires forall i :: 0 <= i < |ws| ==> ws[i].id != id
    ensures var r := PutAll(s, ws).revs; (id in r <==> id in s.revs) && (id in r ==> r[id] == s.revs[id])
  {
    if ws != [] { UnwrittenKeepsRevision(s, ws[..|ws| - 1], id); }
  }

  /** The first `n` updates succeed exactly when they are well-shaped, distinct, not required
      and their fresh upserts parse; then they act as writes. */
  lemma {:induction false} StepsExact(scan: Scan, s: State, d: Delta, n: nat)
    requires n <= |d.updates|
    ensures var p := Steps(scan, s, d, n);
      && (p.Some? ==> forall i :: 0 <= i < n ==> ShapeOk(d.updates[i]))
      && (p.Some? ==> p.value.seen == set i | 0 <= i < n :: IdOf(d.updates[i]))
      && (p.Some? ==> forall i, j :: 0 <= i < j < n ==> IdOf(d.updates[i]) != IdOf(d.updates[j]))
      && (p.Some? ==> forall i :: 0 <= i < n ==> IdOf(d.updates[i]) !in scan.required)
      && (p.Some? ==>
            p.value.carried ==
            seq(n, i requires 0 <= i < n => PredicateRevision(IdOf(d.updates[i]), RevisionOf(d.updates[i]))))
  {
    if n > 0 { StepsExact(scan, s, d, n - 1); }
  }

  lemma UpdateActsAsPut(scan: Scan, s: State, u: Option<UpdateObject>, payload: string)
    requires ShapeOk(u)
    ensures Update(scan, s, u, payload).Some? <==> InstallsCleanly(scan, s.revs, u, payload)
    ensures Update(scan, s, u, payload).Some? ==> Update(scan, s, u, payload).value == Put(s, WriteOf(scan, u, payload))
  {
  }

  /** The IDs of the first `n` updates. */
  ghost function IdsBefore(d: Delta, n: nat): set<string>
    requires n <= |d.updates| && forall i :: 0 <= i < n ==> ShapeOk(d.updates[i])
  {
    set i | 0 <= i < n :: IdOf(d.updates[i])
  }

  /** The first `n` updates of a well-formed delta did what their writes do. */
  ghost predicate ActedAsWrites(scan: Scan, s: State, d: Delta, n: nat)
    requires WellFormed(scan, d) && n <= |d.updates|
  {
    var p := Steps(scan, s, d, n);
    && p.Some?
    && p.value.state == PutAll(s, Writes(scan, d)[..n])
    && p.value.seen == IdsBefore(d, n)
  }

  /** One more update of a well-formed delta, given what the updates before it did. */
  lemma NextStep(scan: Scan, s: State, d: Delta, n: nat)
    requires WellFormed(scan, d) && n < |d.updates|
    requires ActedAsWrites(scan, s, d, n)
    ensures Steps(scan, s, d, n + 1).Some? <==> InstallsCleanly(scan, s.revs, d.updates[n], d.payload)
    ensures Steps(scan, s, d, n + 1).Some? ==> ActedAsWrites(scan, s, d, n + 1)
  {
    var u, ws, before := d.updates[n], Writes(scan, d), Steps(scan, s, d, n).value.state;
    FreshnessIsAtStart(scan, s, d, n);
    UpdateActsAsPut(scan, before, u, d.payload);
    assert ws[..n + 1][..n] == ws[..n] && ws[..n + 1][n] == WriteOf(scan, u, d.payload);
    assert IdsBefore(d, n + 1) == IdsBefore(d, n) + {IdOf(u)};
  }

  /** Each of the first `n` updates installs cleanly. */
  ghost predicate AllInstallCleanly(scan: Scan, revs: map<string, nat>, d: Delta, n: nat)
    requires n <= |d.updates| && forall i :: 0 <= i < n ==> ShapeOk(d.updates[i])
  {
    forall i :: 0 <= i < n ==> InstallsCleanly(scan, revs, d.updates[i], d.payload)
  }

  lemma RefusedStaysRefused(scan: Scan, s: State, d: Delta, n: nat)
    requires n < |d.updates| && Steps(scan, s, d, n).None?
    ensures Steps(scan, s, d, n + 1).None?
  {
  }

  lemma {:induction false} StepsActAsWrites(scan: Scan, s: State, d: Delta, n: nat)
    requires WellFormed(scan, d) && n <= |d.updates|
    ensures Steps(scan, s, d, n).Some? <==> AllInstallCleanly(scan, s.revs, d, n)
    ensures Steps(scan, s, d, n).Some? ==> ActedAsWrites(scan, s, d, n)
  {
    if n == 0 {
      assert Writes(scan, d)[..0] == [] && IdsBefore(d, 0) == {};
    } else {
      StepsActAsWrites(scan, s, d, n - 1);
      if Steps(scan, s, d, n - 1).Some? {
        NextStep(scan, s, d, n - 1);
      } else {
        RefusedStaysRefused(scan, s, d, n - 1);
      }
    }
  }

  lemma AcceptedIsWellFormed(scan: Scan, s: State, d: Delta)
    requires HeaderOk(scan, d) && Steps(scan, s, d, |d.updates|).Some?
    ensures WellFormed(scan, d)
    ensures Steps(scan, s, d, |d.updates|).value.carried == CarriedBy(scan, d)
  {
    StepsExact(scan, s, d, |d.updates|);
  }

  lemma WellFormedSteps(scan: Scan, s: State, d: Delta)
    requires WellFormed(scan, d)
    ensures var p := Steps(scan, s, d, |d.updates|);
      && (p.Some? <==> FreshUpsertsParse(scan, s.revs, d))
      && (p.Some? ==> p.value.state == PutAll(s, Writes(scan, d)))
    ensures |PutAll(s, Writes(scan, d)).revs| == |s.revs.Keys + WrittenIds(Writes(scan, d))|
  {
    var ws := Writes(scan, d);
    StepsActAsWrites(scan, s, d, |d.updates|);
    assert ws[..|d.updates|] == ws;
    RevisionsAreMaxima(s, ws);
    assert |PutAll(s, ws).revs| == |PutAll(s, ws).revs.Keys|;
  }

  /** A delta is accepted exactly when it is well-formed, its fresh upserts parse and the ID
      limit holds; it then writes its updates in document order and reports every (id, revision). */
  lemma ApplyExact(scan: Scan, s: State, d: Delta)
    ensures Apply(scan, s, d).Some? <==>
      && WellFormed(scan, d)
      && FreshUpsertsParse(scan, s.revs, d)
      && |s.revs.Keys + WrittenIds(Writes(scan, d))| <= MAX_IDS
    ensures Apply(scan, s, d).Some? ==>
      && Apply(scan, s, d).value.0 == PutAll(s, Writes(scan, d))
      && Apply(scan, s, d).value.1 == CarriedBy(scan, d)
  {
    if HeaderOk(scan, d) {
      if Steps(scan, s, d, |d.updates|).Some? { AcceptedIsWellFormed(scan, s, d); }
      if WellFormed(scan, d) { WellFormedSteps(scan, s, d); }
    }
  }

  // ---------------------------------------------------------------------------
  // What every reachable state keeps
  // ---------------------------------------------------------------------------

  ghost predicate DistinctIds(preds: seq<Predicate>) {
    forall i, j :: 0 <= i < j < |preds| ==> preds[i].id != preds[j].id
  }

  /** Live IDs are distinct, each live predicate carries its ID's current revision, and no tombstone is required. */
  ghost predicate Valid(scan: Scan, s: State) {
    && DistinctIds(s.preds)
    && (forall p :: p in s.preds ==> p.id in s.revs && s.revs[p.id] == p.revision)
    && (forall p :: p in s.preds ==> (p.mode == Required <==> p.id in scan.required))
    && (forall id :: id in scan.required ==> exists p :: p in s.preds && p.id == id)
    && |s.revs| <= MAX_IDS
  }

  lemma {:induction false} WithoutMembers(preds: seq<Predicate>, id: string)
    ensures forall p :: p in Without(preds, id) <==> p in preds && p.id != id
  {
    if preds != [] {
      WithoutMembers(preds[..|preds| - 1], id);
      assert preds == preds[..|preds| - 1] + [preds[|preds| - 1]];
    }
  }

  lemma {:induction false} WithoutKeepsDistinct(preds: seq<Predicate>, id: string)
    requires DistinctIds(preds)
    ensures DistinctIds(Without(preds, id))
  {
    if preds != [] {
      var n := |preds| - 1;
      WithoutKeepsDistinct(preds[..n], id);
      WithoutMembers(preds[..n], id);
      var r := Without(preds[..n], id);
      forall i | 0 <= i < |r| ensures r[i].id != preds[n].id {
        assert r[i] in preds[..n];
      }
    }
  }

  lemma PutKeepsValid(scan: Scan, s: State, w: Write)
    requires Valid(scan, s) && w.id !in scan.required
    requires |Put(s, w).revs| <= MAX_IDS
    ensures Valid(scan, Put(s, w))
    ensures forall p :: p in s.preds && p.mode == Required ==> p in Put(s, w).preds
  {
    WithoutKeepsDistinct(s.preds, w.id);
    WithoutMembers(s.preds, w.id);
    var kept := Without(s.preds, w.id);
    forall i | 0 <= i < |kept| ensures kept[i].id != w.id { assert kept[i] in kept; }
    forall id | id in scan.required ensures exists p :: p in Put(s, w).preds && p.id == id {
      var p :| p in s.preds && p.id == id;
      assert p in Put(s, w).preds;
    }
  }

  lemma {:induction false} PutAllKeepsValid(scan: Scan, s: State, ws: seq<Write>)
    requires Valid(scan, s)
    requires forall i :: 0 <= i < |ws| ==> ws[i].id !in scan.required
    requires |PutAll(s, ws).revs| <= MAX_IDS
    ensures Valid(scan, PutAll(s, ws))
    ensures forall p :: p in s.preds && p.mode == Required ==> p in PutAll(s, ws).preds
  {
    if ws != [] {
      var before, after := PutAll(s, ws[..|ws| - 1]), PutAll(s, ws);
      assert before.revs.Keys <= after.revs.Keys;
      FewerKeys(before.revs, after.revs);
      PutAllKeepsValid(scan, s, ws[..|ws| - 1]);
      PutKeepsValid(scan, before, ws[|ws| - 1]);
    }
  }

  lemma FewerKeys(a: map<string, nat>, b: map<string, nat>)
    requires a.Keys <= b.Keys
    ensures |a| <= |b|
  {
    SubsetIsSmaller(a.Keys, b.Keys);
    assert |a| == |a.Keys| && |b| == |b.Keys|;
  }

  lemma SubsetIsSmaller<T>(a: set<T>, b: set<T>)
    requires a <= b
    ensures |a| <= |b|
  {
    assert b == a + (b - a);
  }

  /** An accepted delta keeps the state valid, never lowers a revision or forgets an ID, and
      neither alters nor removes a required predicate. */
  lemma DeltaKeepsValid(scan: Scan, s: State, d: Delta)
    requires Valid(scan, s)
    requires Apply(scan, s, d).Some?
    ensures var t := Apply(scan, s, d).value.0;
      && Valid(scan, t)
      && (forall id :: id in s.revs ==> id in t.revs && s.revs[id] <= t.revs[id])
      && (forall p :: p in s.preds && p.mode == Required ==> p in t.preds)
      && (forall id :: id in scan.required && id in s.revs ==> t.revs[id] == s.revs[id])
  {
    ApplyExact(scan, s, d);
    var ws := Writes(scan, d);
    RevisionsAreMaxima(s, ws);
    PutAllKeepsValid(scan, s, ws);
    forall id | id in scan.required && id in s.revs
      ensures PutAll(s, ws).revs[id] == s.revs[id]
    {
      UnwrittenKeepsRevision(s, ws, id);
    }
  }
}
