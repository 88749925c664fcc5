/** The compacted delta history an HTTP worker carries in its cursor, and the proof that
    rebuilding from it is the same as having kept the state in memory
    (vgi/filter_delta_history.go). */
module FilterHistory {
  import opened Wrappers
  import opened FilterState

  // ---------------------------------------------------------------------------
  // Compaction
  // ---------------------------------------------------------------------------

  /** The (id, revision) pairs a recorded delta carries; `None` if it cannot be read back. */
  function DeltaRevisions(d: Delta): (r: Option<seq<PredicateRevision>>) {
    if !d.batchOk || !d.jsonOk || exists i :: 0 <= i < |d.updates| && !ShapeOk(d.updates[i]) then None
    else Some(seq(|d.updates|,
      i requires 0 <= i < |d.updates| => PredicateRevision(IdOf(d.updates[i]), RevisionOf(d.updates[i]))))
  }

  /** The wanted IDs whose wanted revision is among the pairs. */
  function Hits(wanted: map<string, nat>, pairs: seq<PredicateRevision>): set<string> {
    set i | 0 <= i < |pairs| && pairs[i].id in wanted && wanted[pairs[i].id] == pairs[i].revision :: pairs[i].id
  }

  function PairsOf(d: Delta): seq<PredicateRevision> {
    match DeltaRevisions(d) case None => [] case Some(pairs) => pairs
  }

  datatype Kept = Kept(deltas: seq<Delta>, wanted: map<string, nat>)

  /** The deltas that first carry a wanted pair, in arrival order, and the pairs nobody carried. */
  function Keep(wanted: map<string, nat>, ds: seq<Delta>): Kept {
    if ds == [] then Kept([], wanted)
    else
      KeepOne(Keep(wanted, ds[..|ds| - 1]), ds[|ds| - 1])
  }

  function KeepOne(before: Kept, d: Delta): Kept {
    var hits := Hits(before.wanted, PairsOf(d));
    Kept(if hits == {} then before.deltas else before.deltas + [d], before.wanted - hits)
  }

  /** The compacted history of a run that ended with revisions `revs`: the first carriers of its live pairs. */
  function Compact(revs: map<string, nat>, ds: seq<Delta>): seq<Delta> {
    Keep(revs, ds).deltas
  }

  // ---------------------------------------------------------------------------
  // What compaction keeps
  // ---------------------------------------------------------------------------

  predicate CarriesPair(d: Delta, id: string, revision: nat) {
    PredicateRevision(id, revision) in PairsOf(d)
  }

  /** Nobody among the deltas carries the wanted revision of the ID. */
  predicate Uncarried(wanted: map<string, nat>, ds: seq<Delta>, id: string)
    requires id in wanted
  {
    forall j :: 0 <= j < |ds| ==> !CarriesPair(ds[j], id, wanted[id])
  }

  /** Delta `i` carries some wanted pair that no earlier delta carries. */
  predicate FirstCarrier(wanted: map<string, nat>, ds: seq<Delta>, i: nat)
    requires i < |ds|
  {
    exists id :: id in wanted && CarriesPair(ds[i], id, wanted[id]) && Uncarried(wanted, ds[..i], id)
  }

  /** The first carriers among the first `n` deltas, in arrival order. */
  function FirstCarriers(wanted: map<string, nat>, ds: seq<Delta>, n: nat): seq<Delta>
    requires n <= |ds|
  {
    if n == 0 then []
    else FirstCarriers(wanted, ds, n - 1) + if FirstCarrier(wanted, ds, n - 1) then [ds[n - 1]] else []
  }

  function UncarriedPairs(wanted: map<string, nat>, ds: seq<Delta>): map<string, nat> {
    map id | id in wanted && Uncarried(wanted, ds, id) :: wanted[id]
  }

  lemma HitsAreCarried(wanted: map<string, nat>, left: map<string, nat>, d: Delta, id: string)
    requires forall k :: k in left ==> k in wanted && left[k] == wanted[k]
    ensures id in Hits(left, PairsOf(d)) <==> id in left && CarriesPair(d, id, wanted[id])
  {
    if id in left && CarriesPair(d, id, wanted[id]) {
      var i :| 0 <= i < |PairsOf(d)| && PairsOf(d)[i] == PredicateRevision(id, wanted[id]);
      assert PairsOf(d)[i].id in left && left[PairsOf(d)[i].id] == PairsOf(d)[i].revision;
    }
  }

  lemma UncarriedOneMore(wanted: map<string, nat>, ds: seq<Delta>, n: nat, id: string)
    requires n < |ds| && id in wanted
    ensures Uncarried(wanted, ds[..n + 1], id) <==>
      Uncarried(wanted, ds[..n], id) && !CarriesPair(ds[n], id, wanted[id])
  {
    assert ds[..n + 1] == ds[..n] + [ds[n]];
  }

  /** One more delta strikes out exactly what it is the first to carry. */
  lemma StrikesFirstCarried(wanted: map<string, nat>, ds: seq<Delta>, n: nat)
    requires n < |ds|
    ensures var left := UncarriedPairs(wanted, ds[..n]); var hits := Hits(left, PairsOf(ds[n]));
      && (hits != {} <==> FirstCarrier(wanted, ds, n))
      && left - hits == UncarriedPairs(wanted, ds[..n + 1])
  {
    var left := UncarriedPairs(wanted, ds[..n]);
    var hits := Hits(left, PairsOf(ds[n]));
    forall id ensures id in hits <==>
      id in wanted && Uncarried(wanted, ds[..n], id) && CarriesPair(ds[n], id, wanted[id]) {
      HitsAreCarried(wanted, left, ds[n], id);
    }
    if FirstCarrier(wanted, ds, n) {
      var id :| id in wanted && CarriesPair(ds[n], id, wanted[id]) && Uncarried(wanted, ds[..n], id);
      assert id in hits;
    } else {
      assert hits == {};
    }
    LeftAfterHits(wanted, ds, n, hits);
  }

  lemma LeftAfterHits(wanted: map<string, nat>, ds: seq<Delta>, n: nat, hits: set<string>)
    requires n < |ds|
    requires forall id :: id in hits <==>
      id in wanted && Uncarried(wanted, ds[..n], id) && CarriesPair(ds[n], id, wanted[id])
    ensures UncarriedPairs(wanted, ds[..n]) - hits == UncarriedPairs(wanted, ds[..n + 1])
  {
    forall id | id in wanted
      ensures Uncarried(wanted, ds[..n + 1], id) <==> Uncarried(wanted, ds[..n], id) && id !in hits {
      UncarriedOneMore(wanted, ds, n, id);
    }
  }

  /** Compaction keeps exactly the first carriers of the wanted pairs, in arrival order, and leaves
      wanted exactly the pairs nobody carries. */
  lemma {:induction false} KeepsFirstCarriers(wanted: map<string, nat>, ds: seq<Delta>, n: nat)
    requires n <= |ds|
    ensures Keep(wanted, ds[..n]) == Kept(FirstCarriers(wanted, ds, n), UncarriedPairs(wanted, ds[..n]))
  {
    if n == 0 {
      assert UncarriedPairs(wanted, []) == wanted;
    } else {
      KeepsFirstCarriers(wanted, ds, n - 1);
      StrikesFirstCarried(wanted, ds, n - 1);
      assert ds[..n][..n - 1] == ds[..n - 1];
      assert FirstCarriers(wanted, ds, n - 1) + [] == FirstCarriers(wanted, ds, n - 1);
    }
  }

  lemma CompactIsFirstCarriers(wanted: map<string, nat>, ds: seq<Delta>)
    ensures Compact(wanted, ds) == FirstCarriers(wanted, ds, |ds|)
    ensures Keep(wanted, ds).wanted == UncarriedPairs(wanted, ds)
  {
    assert ds[..|ds|] == ds;
    KeepsFirstCarriers(wanted, ds, |ds|);
  }

  // ---------------------------------------------------------------------------
  // Replay
  // ---------------------------------------------------------------------------

  /** Apply deltas one after another; `None` as soon as one is refused. */
  function Replay(scan: Scan, s: State, ds: seq<Delta>): Option<State> {
    if ds == [] then Some(s)
    else
      match Replay(scan, s, ds[..|ds| - 1])
      case None => None
      case Some(t) =>
        match Apply(scan, t, ds[|ds| - 1])
        case None => None
        case Some(r) => Some(r.0)
  }

  ghost predicate AllWellFormed(scan: Scan, ds: seq<Delta>) {
    forall i :: 0 <= i < |ds| ==> WellFormed(scan, ds[i])
  }

  ghost function AllWrites(scan: Scan, ds: seq<Delta>): seq<Write>
    requires AllWellFormed(scan, ds)
  {
    if ds == [] then [] else AllWrites(scan, ds[..|ds| - 1]) + Writes(scan, ds[|ds| - 1])
  }

  lemma OneMoreWellFormed(scan: Scan, ds: seq<Delta>)
    requires ds != [] && AllWellFormed(scan, ds[..|ds| - 1]) && WellFormed(scan, ds[|ds| - 1])
    ensures AllWellFormed(scan, ds)
  {
    forall i | 0 <= i < |ds| ensures WellFormed(scan, ds[i]) {
      if i < |ds| - 1 { assert ds[..|ds| - 1][i] == ds[i]; }
    }
  }

  /** An accepted run is the write of all its updates in arrival order. */
  lemma {:induction false} ReplayIsWrites(scan: Scan, s: State, ds: seq<Delta>)
    requires Replay(scan, s, ds).Some?
    ensures AllWellFormed(scan, ds)
    ensures Replay(scan, s, ds).value == PutAll(s, AllWrites(scan, ds))
  {
    if ds != [] {
      var n := |ds| - 1;
      ReplayIsWrites(scan, s, ds[..n]);
      ApplyExact(scan, Replay(scan, s, ds[..n]).value, ds[n]);
      OneMoreWellFormed(scan, ds);
      PutAllSplit(s, AllWrites(scan, ds[..n]), Writes(scan, ds[n]));
    }
  }

  // ---------------------------------------------------------------------------
  // Simulation: full replay against compacted replay
  // ---------------------------------------------------------------------------

  /** The IDs that already have their final revision. */
  function SettledIds(revs: map<string, nat>, final: map<string, nat>): set<string> {
    set id | id in revs && id in final && revs[id] == final[id]
  }

  function Restrict(preds: seq<Predicate>, ids: set<string>): seq<Predicate> {
    if preds == [] then []
    else
      var last := preds[|preds| - 1];
      Restrict(preds[..|preds| - 1], ids) + (if last.id in ids then [last] else [])
  }

  ghost predicate Below(revs: map<string, nat>, final: map<string, nat>) {
    forall id :: id in revs ==> id in final && revs[id] <= final[id]
  }

  /** Two states on the way to the same final revisions: the same IDs are settled, and the
      settled predicates are the same, in the same order. */
  ghost predicate Agree(a: State, b: State, final: map<string, nat>) {
    && Below(a.revs, final)
    && Below(b.revs, final)
    && SettledIds(a.revs, final) == SettledIds(b.revs, final)
    && Restrict(a.preds, SettledIds(a.revs, final)) == Restrict(b.preds, SettledIds(b.revs, final))
  }

  lemma RestrictOneMore(preds: seq<Predicate>, p: Predicate, ids: set<string>)
    ensures Restrict(preds + [p], ids) == Restrict(preds, ids) + (if p.id in ids then [p] else [])
  {
    assert (preds + [p])[..|preds|] == preds;
  }

  /** Taking an ID out of the list does not disturb the others. */
  lemma {:induction false} RestrictWithout(preds: seq<Predicate>, id: string, ids: set<string>)
    ensures Restrict(Without(preds, id), ids) == Restrict(preds, ids - {id})
  {
    if preds != [] {
      var n := |preds| - 1;
      RestrictWithout(preds[..n], id, ids);
      if preds[n].id != id {
        RestrictOneMore(Without(preds[..n], id), preds[n], ids);
      } else {
        assert Without(preds, id) == Without(preds[..n], id);
      }
    }
  }

  ghost predicate Bounded(w: Write, final: map<string, nat>) {
    w.id in final && w.revision <= final[w.id]
  }

  /** What one write does to the settled part of a state. */
  lemma PutSettled(s: State, w: Write, final: map<string, nat>)
    requires Below(s.revs, final) && Bounded(w, final)
    ensures var t, ids := Put(s, w), SettledIds(s.revs, final);
      && Below(t.revs, final)
      && (if w.id in ids || w.revision < final[w.id]
          then SettledIds(t.revs, final) == ids && Restrict(t.preds, ids) == Restrict(s.preds, ids)
          else && SettledIds(t.revs, final) == ids + {w.id}
               && Restrict(t.preds, ids + {w.id}) == Restrict(s.preds, ids) +
                    (if w.body.Live? then [Predicate(w.id, w.revision, Advisory, w.body.expr)] else []))
  {
    var t, ids := Put(s, w), SettledIds(s.revs, final);
    if Fresh(s.revs, w.id, w.revision) {
      assert w.id !in ids;
      var kept := Without(s.preds, w.id);
      RestrictWithout(s.preds, w.id, ids);
      RestrictWithout(s.preds, w.id, ids + {w.id});
      assert ids - {w.id} == ids && ids + {w.id} - {w.id} == ids;
      if w.body.Live? {
        var p := Predicate(w.id, w.revision, Advisory, w.body.expr);
        RestrictOneMore(kept, p, ids);
        RestrictOneMore(kept, p, ids + {w.id});
      } else {
        assert t.preds == kept;
      }
    }
  }

  ghost predicate AllBounded(ws: seq<Write>, final: map<string, nat>) {
    forall i :: 0 <= i < |ws| ==> Bounded(ws[i], final)
  }

  /** Every write that carries a final revision is for a settled ID. */
  ghost predicate FinalsSettled(ws: seq<Write>, final: map<string, nat>, settled: set<string>) {
    forall i :: 0 <= i < |ws| && ws[i].id in final && ws[i].revision == final[ws[i].id] ==> ws[i].id in settled
  }

  lemma {:induction false} BothWrite(a: State, b: State, ws: seq<Write>, final: map<string, nat>)
    requires Agree(a, b, final) && AllBounded(ws, final)
    ensures Agree(PutAll(a, ws), PutAll(b, ws), final)
    ensures SettledIds(a.revs, final) <= SettledIds(PutAll(a, ws).revs, final)
    ensures FinalsSettled(ws, final, SettledIds(PutAll(a, ws).revs, final))
  {
    if ws != [] {
      var n := |ws| - 1;
      BothWrite(a, b, ws[..n], final);
      PutSettled(PutAll(a, ws[..n]), ws[n], final);
      PutSettled(PutAll(b, ws[..n]), ws[n], final);
      forall i | 0 <= i < |ws| && ws[i].revision == final[ws[i].id]
        ensures ws[i].id in SettledIds(PutAll(a, ws).revs, final)
      {
        if i < n { assert ws[..n][i] == ws[i]; }
      }
    }
  }

  /** A delta that settles nothing new can be left out on one side. */
  lemma {:induction false} OneWrites(a: State, b: State, ws: seq<Write>, final: map<string, nat>)
    requires Agree(a, b, final) && AllBounded(ws, final)
    requires FinalsSettled(ws, final, SettledIds(a.revs, final))
    ensures Agree(PutAll(a, ws), b, final)
    ensures SettledIds(PutAll(a, ws).revs, final) == SettledIds(a.revs, final)
  {
    if ws != [] {
      var n := |ws| - 1;
      OneWrites(a, b, ws[..n], final);
      PutSettled(PutAll(a, ws[..n]), ws[n], final);
    }
  }

  lemma PairsOfWellFormed(scan: Scan, d: Delta)
    requires WellFormed(scan, d)
    ensures PairsOf(d) == CarriedBy(scan, d)
    ensures forall i :: 0 <= i < |d.updates| ==>
      PairsOf(d)[i] == PredicateRevision(Writes(scan, d)[i].id, Writes(scan, d)[i].revision)
  {
  }

  ghost predicate Within(wanted: map<string, nat>, final: map<string, nat>) {
    forall id :: id in wanted ==> id in final && wanted[id] == final[id]
  }

  lemma CarriedIsHit(wanted: map<string, nat>, pairs: seq<PredicateRevision>, i: nat)
    requires i < |pairs|
    ensures pairs[i].id in wanted && wanted[pairs[i].id] == pairs[i].revision ==> pairs[i].id in Hits(wanted, pairs)
  {
  }

  /** A delta that hits nothing wanted carries a final revision only for an ID already settled. */
  lemma NoHitIsSettled(scan: Scan, d: Delta, wanted: map<string, nat>, final: map<string, nat>, settled: set<string>)
    requires WellFormed(scan, d) && Hits(wanted, PairsOf(d)) == {}
    requires Within(wanted, final) && final.Keys - wanted.Keys <= settled
    ensures FinalsSettled(Writes(scan, d), final, settled)
  {
    PairsOfWellFormed(scan, d);
    var ws, pairs := Writes(scan, d), PairsOf(d);
    forall i | 0 <= i < |ws| && ws[i].id in final && ws[i].revision == final[ws[i].id] ensures ws[i].id in settled {
      CarriedIsHit(wanted, pairs, i);
    }
  }

  lemma HitsSettle(scan: Scan, d: Delta, wanted: map<string, nat>, final: map<string, nat>, settled: set<string>)
    requires WellFormed(scan, d) && Within(wanted, final)
    requires FinalsSettled(Writes(scan, d), final, settled)
    ensures Hits(wanted, PairsOf(d)) <= settled
  {
    PairsOfWellFormed(scan, d);
    forall id | id in Hits(wanted, PairsOf(d)) ensures id in settled {
      var i :| 0 <= i < |PairsOf(d)| && PairsOf(d)[i].id == id && wanted[id] == PairsOf(d)[i].revision;
      assert Writes(scan, d)[i].id == id;
    }
  }

  lemma SmallerAfterHits(wanted: map<string, nat>, hits: set<string>)
    requires hits <= wanted.Keys && hits != {}
    ensures |wanted - hits| + 1 <= |wanted|
  {
    var id :| id in hits;
    SubsetIsSmaller((wanted - hits).Keys, wanted.Keys - {id});
    assert |(wanted - hits).Keys| == |wanted - hits| && |wanted.Keys| == |wanted|;
  }

  /** Each kept delta strikes out at least one wanted pair, so there are no more of them than pairs. */
  lemma {:induction false} KeepShrinks(wanted: map<string, nat>, ds: seq<Delta>)
    ensures Within(Keep(wanted, ds).wanted, wanted)
    ensures |Keep(wanted, ds).deltas| + |Keep(wanted, ds).wanted| <= |wanted|
  {
    if ds != [] {
      KeepShrinks(wanted, ds[..|ds| - 1]);
      var before := Keep(wanted, ds[..|ds| - 1]).wanted;
      var hits := Hits(before, PairsOf(ds[|ds| - 1]));
      if hits != {} {
        SmallerAfterHits(before, hits);
      } else {
        assert before - hits == before;
      }
    }
  }

  lemma AllBoundedSplit(a: seq<Write>, b: seq<Write>, final: map<string, nat>)
    requires AllBounded(a + b, final)
    ensures AllBounded(a, final) && AllBounded(b, final)
  {
    forall i | 0 <= i < |a| ensures Bounded(a[i], final) { assert (a + b)[i] == a[i]; }
    forall i | 0 <= i < |b| ensures Bounded(b[i], final) { assert (a + b)[|a| + i] == b[i]; }
  }

  /** One more delta of the run: kept, both sides write it; dropped, it settles nothing. */
  lemma OneMoreDelta(scan: Scan, a: State, b: State, d: Delta, wanted: map<string, nat>, final: map<string, nat>)
    requires WellFormed(scan, d) && AllBounded(Writes(scan, d), final)
    requires Agree(a, b, final) && Within(wanted, final)
    requires final.Keys - wanted.Keys <= SettledIds(a.revs, final)
    ensures var ws, hits := Writes(scan, d), Hits(wanted, PairsOf(d));
      && Agree(PutAll(a, ws), if hits == {} then b else PutAll(b, ws), final)
      && final.Keys - (wanted - hits).Keys <= SettledIds(PutAll(a, ws).revs, final)
  {
    var ws := Writes(scan, d);
    if Hits(wanted, PairsOf(d)) == {} {
      NoHitIsSettled(scan, d, wanted, final, SettledIds(a.revs, final));
      OneWrites(a, b, ws, final);
    } else {
      BothWrite(a, b, ws, final);
      HitsSettle(scan, d, wanted, final, SettledIds(PutAll(a, ws).revs, final));
    }
  }

  lemma AllWritesOneMore(scan: Scan, ds: seq<Delta>, d: Delta)
    requires AllWellFormed(scan, ds) && WellFormed(scan, d)
    ensures AllWellFormed(scan, ds + [d]) && AllWrites(scan, ds + [d]) == AllWrites(scan, ds) + Writes(scan, d)
  {
    assert (ds + [d])[..|ds|] == ds;
    OneMoreWellFormed(scan, ds + [d]);
  }

  /** At every prefix of the run, the full and the compacted replay agree on what is settled,
      and every pair no longer wanted is settled. */
  lemma {:induction false} PrefixesAgree(scan: Scan, s: State, ds: seq<Delta>, final: map<string, nat>)
    requires AllWellFormed(scan, ds) && Below(s.revs, final)
    requires AllBounded(AllWrites(scan, ds), final)
    ensures AllWellFormed(scan, Compact(final, ds))
    ensures var a, b := PutAll(s, AllWrites(scan, ds)), PutAll(s, AllWrites(scan, Compact(final, ds)));
      && Agree(a, b, final)
      && final.Keys - Keep(final, ds).wanted.Keys <= SettledIds(a.revs, final)
  {
    if ds != [] {
      var n := |ds| - 1;
      var ws, d := AllWrites(scan, ds[..n]), ds[n];
      AllBoundedSplit(ws, Writes(scan, d), final);
      PrefixesAgree(scan, s, ds[..n], final);
      var k := Keep(final, ds[..n]);
      KeepShrinks(final, ds[..n]);
      PutAllSplit(s, ws, Writes(scan, d));
      PutAllSplit(s, AllWrites(scan, k.deltas), Writes(scan, d));
      AllWritesOneMore(scan, k.deltas, d);
      OneMoreDelta(scan, PutAll(s, ws), PutAll(s, AllWrites(scan, k.deltas)), d, k.wanted, final);
    }
  }

  // ---------------------------------------------------------------------------
  // The compacted writes rebuild the state
  // ---------------------------------------------------------------------------

  ghost predicate LiveAreKnown(s: State) {
    forall i :: 0 <= i < |s.preds| ==> s.preds[i].id in s.revs
  }

  lemma {:induction false} PutAllKeepsKnown(s: State, ws: seq<Write>)
    requires LiveAreKnown(s)
    ensures LiveAreKnown(PutAll(s, ws))
  {
    if ws != [] {
      var t, w := PutAll(s, ws[..|ws| - 1]), ws[|ws| - 1];
      PutAllKeepsKnown(s, ws[..|ws| - 1]);
      WithoutMembers(t.preds, w.id);
      var kept := Without(t.preds, w.id);
      forall i | 0 <= i < |kept| ensures kept[i].id in t.revs { assert kept[i] in kept; }
    }
  }

  lemma {:induction false} RestrictToAll(preds: seq<Predicate>, ids: set<string>)
    requires forall i :: 0 <= i < |preds| ==> preds[i].id in ids
    ensures Restrict(preds, ids) == preds
  {
    if preds != [] { RestrictToAll(preds[..|preds| - 1], ids); }
  }

  lemma SettledAgreementIsEquality(a: State, b: State)
    requires Agree(a, b, a.revs) && LiveAreKnown(a) && LiveAreKnown(b)
    ensures a == b
  {
    assert SettledIds(a.revs, a.revs) == a.revs.Keys;
    assert forall id :: id in b.revs <==> id in SettledIds(b.revs, a.revs);
    assert b.revs.Keys == a.revs.Keys;
    assert b.revs == a.revs;
    RestrictToAll(a.preds, a.revs.Keys);
    RestrictToAll(b.preds, b.revs.Keys);
  }

  /** Writing only the first carriers of the final pairs ends in the state that writing
      everything ends in: the same revisions, tombstones included, and the same predicates in
      the same order. */
  lemma CompactedWritesRebuild(scan: Scan, s: State, ds: seq<Delta>)
    requires AllWellFormed(scan, ds) && LiveAreKnown(s)
    ensures var t := PutAll(s, AllWrites(scan, ds));
      && AllWellFormed(scan, Compact(t.revs, ds))
      && PutAll(s, AllWrites(scan, Compact(t.revs, ds))) == t
  {
    var t := PutAll(s, AllWrites(scan, ds));
    RevisionsAreMaxima(s, AllWrites(scan, ds));
    PrefixesAgree(scan, s, ds, t.revs);
    PutAllKeepsKnown(s, AllWrites(scan, ds));
    PutAllKeepsKnown(s, AllWrites(scan, Compact(t.revs, ds)));
    SettledAgreementIsEquality(t, PutAll(s, AllWrites(scan, Compact(t.revs, ds))));
  }

  // ---------------------------------------------------------------------------
  // Incremental compaction
  // ---------------------------------------------------------------------------

  ghost predicate PairsWithin(pairs: seq<PredicateRevision>, revs: map<string, nat>) {
    forall j :: 0 <= j < |pairs| ==> pairs[j].id in revs && pairs[j].revision <= revs[pairs[j].id]
  }

  ghost predicate AllPairsWithin(ds: seq<Delta>, revs: map<string, nat>) {
    forall i :: 0 <= i < |ds| ==> PairsWithin(PairsOf(ds[i]), revs)
  }

  /** An ID still wanted at the newer revisions, unchanged since the older ones, was still wanted there. */
  ghost predicate StillWanted(newer: map<string, nat>, older: map<string, nat>, olderWanted: map<string, nat>) {
    forall id :: id in newer && id in older && older[id] == newer[id] ==> id in olderWanted
  }

  lemma NewerHitsAreOlderHits(older: map<string, nat>, newer: map<string, nat>,
                              olderWanted: map<string, nat>, newerWanted: map<string, nat>,
                                pairs: seq<PredicateRevision>)
    requires Below(older, newer) && PairsWithin(pairs, older)
    requires Within(olderWanted, older) && Within(newerWanted, newer)
    requires StillWanted(newerWanted, older, olderWanted)
    ensures Hits(newerWanted, pairs) <= Hits(olderWanted, pairs)
    ensures StillWanted(newerWanted - Hits(newerWanted, pairs), older, olderWanted - Hits(olderWanted, pairs))
  {
  }

  lemma AgainOneMore(newer: map<string, nat>, k0: Kept, k: Kept, d: Delta)
    requires Keep(newer, k0.deltas) == k && Hits(k.wanted, PairsOf(d)) <= Hits(k0.wanted, PairsOf(d))
    ensures Keep(newer, KeepOne(k0, d).deltas) == KeepOne(k, d)
  {
    if Hits(k0.wanted, PairsOf(d)) == {} {
      assert k.wanted - Hits(k.wanted, PairsOf(d)) == k.wanted;
    } else {
      assert (k0.deltas + [d])[..|k0.deltas|] == k0.deltas;
    }
  }

  /** Compacting an already compacted history against newer revisions is compacting the full one. */
  lemma {:induction false} CompactingAgain(older: map<string, nat>, newer: map<string, nat>, ds: seq<Delta>)
    requires AllPairsWithin(ds, older) && Below(older, newer)
    ensures Keep(newer, Keep(older, ds).deltas) == Keep(newer, ds)
    ensures StillWanted(Keep(newer, ds).wanted, older, Keep(older, ds).wanted)
  {
    if ds != [] {
      var n := |ds| - 1;
      CompactingAgain(older, newer, ds[..n]);
      var k0, k, pairs := Keep(older, ds[..n]), Keep(newer, ds[..n]), PairsOf(ds[n]);
      KeepShrinks(older, ds[..n]);
      KeepShrinks(newer, ds[..n]);
      NewerHitsAreOlderHits(older, newer, k0.wanted, k.wanted, pairs);
      AgainOneMore(newer, k0, k, ds[n]);
    }
  }
}
