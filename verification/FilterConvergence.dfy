/** Order does not matter to the register: any arrangement of the same deltas ends with the
    same revisions and the same live predicates (vgi/filter_v2.go). And one stale upsert that
    does not parse is enough to make a compacted history unreplayable. */
module FilterConvergence {
  import opened Wrappers
  import opened SqlLogic
  import opened FilterExpr
  import opened FilterState
  import opened FilterHistory
  import opened FilterRuns

  /** Equal (id, revision) pairs carry equal bodies. */
  ghost predicate Consistent(ws: seq<Write>) {
    forall i, j :: 0 <= i < |ws| && 0 <= j < |ws| && ws[i].id == ws[j].id && ws[i].revision == ws[j].revision ==>
      ws[i] == ws[j]
  }

  function Installed(w: Write): Predicate
    requires w.body.Live?
  {
    Predicate(w.id, w.revision, Advisory, w.body.expr)
  }

  /** `p` is live by right: untouched since `base`, or the live write of its ID's final revision. */
  ghost predicate HoldsMaximum(base: State, ws: seq<Write>, final: map<string, nat>, p: Predicate) {
    p.id in final &&
    if p.id in base.revs && base.revs[p.id] == final[p.id] then p in base.preds
    else exists i :: 0 <= i < |ws| && ws[i].body.Live? && p == Installed(ws[i]) && ws[i].revision == final[p.id]
  }

  /** The live predicates after some writes are exactly those that hold their ID's maximum. */
  ghost predicate LiveAreMaxima(base: State, ws: seq<Write>, t: State) {
    forall p :: p in t.preds <==> HoldsMaximum(base, ws, t.revs, p)
  }

  lemma HoldsMaximumOneMore(base: State, ws: seq<Write>, w: Write, final: map<string, nat>, p: Predicate)
    ensures HoldsMaximum(base, ws + [w], final, p) <==>
      || HoldsMaximum(base, ws, final, p)
      || (p.id in final && !(p.id in base.revs && base.revs[p.id] == final[p.id]) && w.body.Live? &&
        p == Installed(w) && w.revision == final[p.id])
  {
    var more := ws + [w];
    assert forall i :: 0 <= i < |ws| ==> more[i] == ws[i];
    assert more[|ws|] == w;
  }

  lemma LiveOneMore(base: State, ws: seq<Write>, w: Write, t: State)
    requires Maxima(base.revs, ws, t.revs) && LiveAreMaxima(base, ws, t)
    requires Consistent(ws + [w]) && LiveAreKnown(base)
    ensures LiveAreMaxima(base, ws + [w], Put(t, w))
  {
    var t' := Put(t, w);
    WithoutMembers(t.preds, w.id);
    forall p ensures p in t'.preds <==> HoldsMaximum(base, ws + [w], t'.revs, p) {
      if Fresh(t.revs, w.id, w.revision) {
        FreshWriteWins(base, ws, w, t, p);
      } else {
        StaleWriteLoses(base, ws, w, t, p);
      }
    }
  }

  lemma FreshWriteWins(base: State, ws: seq<Write>, w: Write, t: State, p: Predicate)
    requires Maxima(base.revs, ws, t.revs) && LiveAreMaxima(base, ws, t)
    requires Fresh(t.revs, w.id, w.revision)
    ensures p in Put(t, w).preds <==> HoldsMaximum(base, ws + [w], Put(t, w).revs, p)
  {
    WithoutMembers(t.preds, w.id);
    HoldsMaximumOneMore(base, ws, w, Put(t, w).revs, p);
    if p.id != w.id {
      assert HoldsMaximum(base, ws, t.revs, p) <==> HoldsMaximum(base, ws, Put(t, w).revs, p);
    }
  }

  lemma StaleWriteLoses(base: State, ws: seq<Write>, w: Write, t: State, p: Predicate)
    requires Maxima(base.revs, ws, t.revs) && LiveAreMaxima(base, ws, t)
    requires !Fresh(t.revs, w.id, w.revision) && Consistent(ws + [w])
    ensures p in Put(t, w).preds <==> HoldsMaximum(base, ws + [w], Put(t, w).revs, p)
  {
    HoldsMaximumOneMore(base, ws, w, t.revs, p);
    if w.revision == t.revs[w.id] && !(w.id in base.revs && base.revs[w.id] == w.revision) {
      var i :| 0 <= i < |ws| && ws[i].id == w.id && ws[i].revision == w.revision;
      assert (ws + [w])[i] == ws[i] && (ws + [w])[|ws|] == w;
      assert ws[i] == w;
    }
  }

  /** The live predicates are, per ID, the write of maximum revision. */
  lemma {:induction false} LivePredicatesAreMaxima(base: State, ws: seq<Write>)
    requires Consistent(ws) && LiveAreKnown(base)
    ensures LiveAreMaxima(base, ws, PutAll(base, ws))
  {
    if ws == [] {
      forall p ensures p in base.preds <==> HoldsMaximum(base, ws, base.revs, p) {
        if p in base.preds {
          var i :| 0 <= i < |base.preds| && base.preds[i] == p;
        }
      }
    } else {
      var n := |ws| - 1;
      assert ws[..n] + [ws[n]] == ws;
      assert Consistent(ws[..n]);
      LivePredicatesAreMaxima(base, ws[..n]);
      RevisionsAreMaxima(base, ws[..n]);
      LiveOneMore(base, ws[..n], ws[n], PutAll(base, ws[..n]));
    }
  }

  ghost predicate SameWrites(a: seq<Write>, b: seq<Write>) {
    forall w :: w in a <==> w in b
  }

  lemma SameMaxima(base: map<string, nat>, a: seq<Write>, b: seq<Write>, ra: map<string, nat>, rb: map<string, nat>)
    requires SameWrites(a, b) && Maxima(base, a, ra) && Maxima(base, b, rb)
    ensures ra == rb
  {
    MaximaBelow(base, a, b, ra, rb);
    MaximaBelow(base, b, a, rb, ra);
    assert ra.Keys == rb.Keys;
  }

  lemma MaximaBelow(base: map<string, nat>, a: seq<Write>, b: seq<Write>, ra: map<string, nat>, rb: map<string, nat>)
    requires SameWrites(a, b) && Maxima(base, a, ra) && Maxima(base, b, rb)
    ensures forall id :: id in ra ==> id in rb && ra[id] <= rb[id]
  {
    forall id | id in ra ensures id in rb && ra[id] <= rb[id] {
      if !(id in base && ra[id] == base[id]) {
        var i :| 0 <= i < |a| && a[i].id == id && a[i].revision == ra[id];
        assert a[i] in b;
        var j :| 0 <= j < |b| && b[j] == a[i];
        assert b[j].id in WrittenIds(b);
      }
    }
  }

  lemma HoldsMaximumDepends(base: State, a: seq<Write>, b: seq<Write>, final: map<string, nat>, p: Predicate)
    requires SameWrites(a, b) && HoldsMaximum(base, a, final, p)
    ensures HoldsMaximum(base, b, final, p)
  {
    if !(p.id in base.revs && base.revs[p.id] == final[p.id]) {
      var i :| 0 <= i < |a| && a[i].body.Live? && p == Installed(a[i]) && a[i].revision == final[p.id];
      assert a[i] in b;
      var j :| 0 <= j < |b| && b[j] == a[i];
    }
  }

  lemma ConsistentDepends(a: seq<Write>, b: seq<Write>)
    requires SameWrites(a, b) && Consistent(a)
    ensures Consistent(b)
  {
    forall i, j | 0 <= i < |b| && 0 <= j < |b| && b[i].id == b[j].id && b[i].revision == b[j].revision
      ensures b[i] == b[j] {
      assert b[i] in a && b[j] in a;
    }
  }

  /** The same writes in any order, with any repetition, end in the same revisions and live predicates. */
  lemma WritesConverge(base: State, a: seq<Write>, b: seq<Write>)
    requires SameWrites(a, b) && Consistent(a) && LiveAreKnown(base)
    ensures PutAll(base, a).revs == PutAll(base, b).revs
    ensures forall p :: p in PutAll(base, a).preds <==> p in PutAll(base, b).preds
  {
    ConsistentDepends(a, b);
    RevisionsAreMaxima(base, a);
    RevisionsAreMaxima(base, b);
    SameMaxima(base.revs, a, b, PutAll(base, a).revs, PutAll(base, b).revs);
    LivePredicatesAreMaxima(base, a);
    LivePredicatesAreMaxima(base, b);
    forall p ensures p in PutAll(base, a).preds <==> p in PutAll(base, b).preds {
      if p in PutAll(base, a).preds { HoldsMaximumDepends(base, a, b, PutAll(base, a).revs, p); }
      if p in PutAll(base, b).preds { HoldsMaximumDepends(base, b, a, PutAll(base, b).revs, p); }
    }
  }

  lemma SameDeltasSameWrites(scan: Scan, a: seq<Delta>, b: seq<Delta>)
    requires AllWellFormed(scan, a) && AllWellFormed(scan, b) && forall d :: d in a ==> d in b
    ensures forall w :: w in AllWrites(scan, a) ==> w in AllWrites(scan, b)
  {
    forall w | w in AllWrites(scan, a) ensures w in AllWrites(scan, b) {
      var m :| 0 <= m < |AllWrites(scan, a)| && AllWrites(scan, a)[m] == w;
      var j, l := WriteIsUpdate(scan, a, m);
      assert a[j] in b;
      var k :| 0 <= k < |b| && b[k] == a[j];
      var m' := UpdateIsWrite(scan, b, k, l);
    }
  }

  /** Two accepted runs over the same set of deltas, in any order and with any repetition, agree
      on every revision and on the set of live predicates, provided equal (id, revision) pairs
      carry equal updates. */
  lemma DeltasConverge(scan: Scan, s: State, a: seq<Delta>, b: seq<Delta>)
    requires Valid(scan, s) && Replay(scan, s, a).Some? && Replay(scan, s, b).Some?
    requires forall d :: d in a <==> d in b
    requires AllWellFormed(scan, a) && Consistent(AllWrites(scan, a))
    ensures Replay(scan, s, a).value.revs == Replay(scan, s, b).value.revs
    ensures forall p :: p in Replay(scan, s, a).value.preds <==> p in Replay(scan, s, b).value.preds
    ensures LiveAreMaxima(s, AllWrites(scan, a), Replay(scan, s, a).value)
  {
    ReplayIsWrites(scan, s, a);
    ReplayIsWrites(scan, s, b);
    SameDeltasSameWrites(scan, a, b);
    SameDeltasSameWrites(scan, b, a);
    WritesConverge(s, AllWrites(scan, a), AllWrites(scan, b));
    LivePredicatesAreMaxima(s, AllWrites(scan, a));
  }

  lemma SameDeltasWellFormed(scan: Scan, a: seq<Delta>, b: seq<Delta>)
    requires AllWellFormed(scan, a) && forall d :: d in b ==> d in a
    ensures AllWellFormed(scan, b)
  {
    forall k | 0 <= k < |b| ensures WellFormed(scan, b[k]) {
      assert b[k] in a;
      var j :| 0 <= j < |a| && a[j] == b[k];
    }
  }

  /** When every upsert parses, a run is accepted in any order and with any repetition if it is
      accepted in one. */
  lemma AnyOrderIsAccepted(scan: Scan, s: State, a: seq<Delta>, b: seq<Delta>)
    requires Valid(scan, s) && Replay(scan, s, a).Some? && forall d :: d in a <==> d in b
    requires AllWellFormed(scan, a) && UpsertsParse(scan, a) && Consistent(AllWrites(scan, a))
    ensures Replay(scan, s, b).Some?
  {
    SameDeltasWellFormed(scan, a, b);
    SameDeltasSameWrites(scan, a, b);
    SameDeltasSameWrites(scan, b, a);
    WritesConverge(s, AllWrites(scan, a), AllWrites(scan, b));
    ReplayIsWrites(scan, s, a);
    RunKeepsValid(scan, s, a);
    UpsertsOfSomeParse(scan, s, a, b);
    ReplayExact(scan, s, b);
  }

  /** So when every upsert parses, all arrangements of one accepted run are accepted and agree. */
  lemma ArrangementsConverge(scan: Scan, s: State, a: seq<Delta>, b: seq<Delta>)
    requires Valid(scan, s) && Replay(scan, s, a).Some? && forall d :: d in a <==> d in b
    requires AllWellFormed(scan, a) && UpsertsParse(scan, a) && Consistent(AllWrites(scan, a))
    ensures Replay(scan, s, b).Some? && Replay(scan, s, a).value.revs == Replay(scan, s, b).value.revs
    ensures forall p :: p in Replay(scan, s, a).value.preds <==> p in Replay(scan, s, b).value.preds
  {
    AnyOrderIsAccepted(scan, s, a, b);
    DeltasConverge(scan, s, a, b);
  }

  // ---------------------------------------------------------------------------
  // A compacted history that cannot be replayed
  // ---------------------------------------------------------------------------

  function Upsert(id: string, revision: nat, expression: string): Option<UpdateObject> {
    Some(UpdateObject(UPSERT_KEYS, Some("upsert"), Some(id), Some(revision), Some("advisory"), Some("top_n"),
      Some(expression)))
  }

  function Document(updates: seq<Option<UpdateObject>>): Delta {
    Delta(true, "vgi.none.v1", true, "vgi.filters.v2", "vgi.duckdb.standard.v1", "delta", false, updates, "")
  }

  /** A scan without required predicates whose parser refuses exactly the expression "bad". */
  function PickyScan(): Scan {
    Scan("vgi.none.v1", {}, (u: UpdateObject, payload: string) =>
      if u.expression == Some("bad") then None else Some(Literal(Flag(true), true)))
  }

  lemma DocumentApplies(s: State, us: seq<Option<UpdateObject>>)
    requires forall i :: 0 <= i < |us| ==> ShapeOk(us[i])
    requires forall i, j :: 0 <= i < j < |us| ==> IdOf(us[i]) != IdOf(us[j])
    requires |s.revs| + |us| <= MAX_IDS
    ensures WellFormed(PickyScan(), Document(us))
    ensures Apply(PickyScan(), s, Document(us)).Some? <==>
      forall i :: 0 <= i < |us| ==> InstallsCleanly(PickyScan(), s.revs, us[i], "")
    ensures Apply(PickyScan(), s, Document(us)).Some? ==>
      Apply(PickyScan(), s, Document(us)).value.0 == PutAll(s, Writes(PickyScan(), Document(us)))
  {
    var d := Document(us);
    WrittenIdsAreFew(Writes(PickyScan(), d));
    assert |s.revs.Keys| == |s.revs|;
    UnionIsSmall(s.revs.Keys, WrittenIds(Writes(PickyScan(), d)));
    ApplyExact(PickyScan(), s, d);
  }

  lemma UnionIsSmall(a: set<string>, b: set<string>)
    ensures |a + b| <= |a| + |b|
  {
    assert a + b == a + (b - a);
    SubsetIsSmaller(b - a, b);
  }

  lemma {:induction false} WrittenIdsAreFew(ws: seq<Write>)
    ensures |WrittenIds(ws)| <= |ws|
  {
    if ws != [] {
      var n := |ws| - 1;
      WrittenIdsAreFew(ws[..n]);
      assert WrittenIds(ws) == WrittenIds(ws[..n]) + {ws[n].id};
      UnionIsSmall(WrittenIds(ws[..n]), {ws[n].id});
    }
  }

  /** A document of one fresh upsert that parses is accepted and raises its ID. */
  lemma OneUpsert(s: State, id: string, revision: nat)
    requires 0 < |id| <= 128 && |s.revs| < 8 && Fresh(s.revs, id, revision)
    ensures var d := Document([Upsert(id, revision, "ok")]);
      && Apply(PickyScan(), s, d).Some?
      && Apply(PickyScan(), s, d).value.0.revs == s.revs[id := revision]
  {
    var d := Document([Upsert(id, revision, "ok")]);
    DocumentApplies(s, d.updates);
    assert Writes(PickyScan(), d)[..0] == [];
  }

  /** A document of an upsert that does not parse and one that does is accepted when the first is stale. */
  lemma StaleAndFresh(s: State, id: string, revision: nat, id': string, revision': nat)
    requires 0 < |id| <= 128 && 0 < |id'| <= 128 && id != id' && |s.revs| < 8
    requires !Fresh(s.revs, id, revision) && Fresh(s.revs, id', revision')
    ensures var d := Document([Upsert(id, revision, "bad"), Upsert(id', revision', "ok")]);
      && Apply(PickyScan(), s, d).Some?
      && Apply(PickyScan(), s, d).value.0.revs == s.revs[id' := revision']
  {
    var d := Document([Upsert(id, revision, "bad"), Upsert(id', revision', "ok")]);
    DocumentApplies(s, d.updates);
    var ws := Writes(PickyScan(), d);
    assert ws[..1] == [ws[0]] && [ws[0]][..0] == [];
    assert PutAll(s, ws[..1]) == s;
  }

  lemma FreshBadIsRefused(s: State, id: string, revision: nat, id': string, revision': nat)
    requires 0 < |id| <= 128 && 0 < |id'| <= 128 && id != id' && |s.revs| < 8
    requires Fresh(s.revs, id, revision)
    ensures Apply(PickyScan(), s, Document([Upsert(id, revision, "bad"), Upsert(id', revision', "ok")])).None?
  {
    var us := [Upsert(id, revision, "bad"), Upsert(id', revision', "ok")];
    DocumentApplies(s, us);
    assert !InstallsCleanly(PickyScan(), s.revs, us[0], "");
  }

  lemma ReplayOneMore(scan: Scan, s: State, ds: seq<Delta>, d: Delta)
    requires Replay(scan, s, ds).Some?
    ensures var a := Apply(scan, Replay(scan, s, ds).value, d);
      Replay(scan, s, ds + [d]) == if a.None? then None else Some(a.value.0)
  {
    assert (ds + [d])[..|ds|] == ds;
  }

  lemma ReplayFailsEarly(scan: Scan, s: State, d: Delta, d': Delta)
    requires Apply(scan, s, d).None?
    ensures Replay(scan, s, [d, d']).None?
  {
    ReplayOneMore(scan, s, [], d);
    assert [] + [d] == [d] && [d, d'][..1] == [d];
  }

  lemma ExampleStart(d1: Delta, d2: Delta)
    requires d1 == Document([Upsert("a", 2, "ok")])
    requires d2 == Document([Upsert("a", 1, "bad"), Upsert("b", 1, "ok")])
    ensures var r := Replay(PickyScan(), State([], map[]), [d1, d2]);
      r.Some? && r.value.revs == map["a" := 2, "b" := 1]
  {
    var scan, s := PickyScan(), State([], map[]);
    OneUpsert(s, "a", 2);
    ReplayOneMore(scan, s, [], d1);
    assert [] + [d1] == [d1];
    StaleAndFresh(Replay(scan, s, [d1]).value, "a", 1, "b", 1);
    ReplayOneMore(scan, s, [d1], d2);
    assert [d1] + [d2] == [d1, d2];
  }

  /** The run of the example: accepted, and ending with these revisions. */
  lemma ExampleRun(d1: Delta, d2: Delta, d3: Delta)
    requires d1 == Document([Upsert("a", 2, "ok")])
    requires d2 == Document([Upsert("a", 1, "bad"), Upsert("b", 1, "ok")])
    requires d3 == Document([Upsert("a", 3, "ok")])
    ensures var r := Replay(PickyScan(), State([], map[]), [d1, d2, d3]);
      r.Some? && r.value.revs == map["a" := 3, "b" := 1]
  {
    ExampleStart(d1, d2);
    ExampleEnd(PickyScan(), State([], map[]), [d1, d2], d3);
    assert [d1, d2] + [d3] == [d1, d2, d3];
  }

  lemma ExampleEnd(scan: Scan, s: State, ds: seq<Delta>, d3: Delta)
    requires scan == PickyScan() && d3 == Document([Upsert("a", 3, "ok")])
    requires Replay(scan, s, ds).Some? && Replay(scan, s, ds).value.revs == map["a" := 2, "b" := 1]
    ensures Replay(scan, s, ds + [d3]).Some? && Replay(scan, s, ds + [d3]).value.revs == map["a" := 3, "b" := 1]
  {
    OneUpsert(Replay(scan, s, ds).value, "a", 3);
    ReplayOneMore(scan, s, ds, d3);
  }

  /** An upsert that does not parse is accepted while it is stale, and kept when its delta also
      carries a live pair; once the delta that made it stale is compacted away it is fresh, and
      the replay fails. The accepted run below ends well; its compacted history does not replay. */
  lemma StaleUpsertBreaksReplay() returns (scan: Scan, s: State, ds: seq<Delta>)
    ensures Valid(scan, s)
    ensures Replay(scan, s, ds).Some?
    ensures Replay(scan, s, Compact(Replay(scan, s, ds).value.revs, ds)).None?
  {
    scan, s := PickyScan(), State([], map[]);
    var d1 := Document([Upsert("a", 2, "ok")]);
    var d2 := Document([Upsert("a", 1, "bad"), Upsert("b", 1, "ok")]);
    var d3 := Document([Upsert("a", 3, "ok")]);
    ds := [d1, d2, d3];
    ExampleRun(d1, d2, d3);
    ExamplePairs(d1, d2, d3);
    CompactsTo(Replay(scan, s, ds).value.revs, d1, d2, d3);
    FreshBadIsRefused(s, "a", 1, "b", 1);
    ReplayFailsEarly(scan, s, d2, d3);
  }

  lemma ExamplePairs(d1: Delta, d2: Delta, d3: Delta)
    requires d1 == Document([Upsert("a", 2, "ok")])
    requires d2 == Document([Upsert("a", 1, "bad"), Upsert("b", 1, "ok")])
    requires d3 == Document([Upsert("a", 3, "ok")])
    ensures PairsOf(d1) == [PredicateRevision("a", 2)]
    ensures PairsOf(d2) == [PredicateRevision("a", 1), PredicateRevision("b", 1)]
    ensures PairsOf(d3) == [PredicateRevision("a", 3)]
  {
  }

  lemma CompactsTo(revs: map<string, nat>, d1: Delta, d2: Delta, d3: Delta)
    requires revs == map["a" := 3, "b" := 1]
    requires PairsOf(d1) == [PredicateRevision("a", 2)]
    requires PairsOf(d2) == [PredicateRevision("a", 1), PredicateRevision("b", 1)]
    requires PairsOf(d3) == [PredicateRevision("a", 3)]
    ensures Compact(revs, [d1, d2, d3]) == [d2, d3]
  {
    var ds := [d1, d2, d3];
    assert ds[..2] == [d1, d2] && ds[..2][..1] == [d1] && [d1][..0] == [];
    assert Hits(revs, PairsOf(d1)) == {};
    assert Keep(revs, [d1]) == Kept([], revs) by { assert revs - {} == revs; }
    assert PairsOf(d2)[1].id in Hits(revs, PairsOf(d2));
    assert Hits(revs, PairsOf(d2)) == {"b"};
    assert [d1, d2][..1] == [d1];
    assert Keep(revs, [d1, d2]) == Kept([d2], map["a" := 3]);
    assert PairsOf(d3)[0].id in Hits(map["a" := 3], PairsOf(d3));
  }
}
