/** Whole runs of a filtered scan: an HTTP worker that rebuilds its filters from the cursor on
    every turn, against a worker that keeps them in memory (vgi/filter_delta_history.go). */
module FilterRuns {
  import opened Wrappers
  import opened FilterState
  import opened FilterHistory
  import opened FilterOrder

  // ---------------------------------------------------------------------------
  // When a replay succeeds
  // ---------------------------------------------------------------------------

  /** Update `i` of delta `k` is newer than the snapshot and than every earlier update of its ID. */
  ghost predicate NewInReplay(scan: Scan, s: State, ds: seq<Delta>, k: nat, i: nat)
    requires AllWellFormed(scan, ds) && k < |ds| && i < |ds[k].updates|
  {
    var u := ds[k].updates[i];
    && Fresh(s.revs, IdOf(u), RevisionOf(u))
    && forall j, l :: 0 <= j < k && 0 <= l < |ds[j].updates| && IdOf(ds[j].updates[l]) == IdOf(u) ==>
         RevisionOf(ds[j].updates[l]) < RevisionOf(u)
  }

  /** Every upsert that this list of deltas would install parses. */
  ghost predicate ReplayParses(scan: Scan, s: State, ds: seq<Delta>)
    requires AllWellFormed(scan, ds)
  {
    forall k, i ::
      0 <= k < |ds| && 0 <= i < |ds[k].updates| && NewInReplay(scan, s, ds, k, i) && IsUpsert(ds[k].updates[i]) ==>
        scan.parse(ds[k].updates[i].value, ds[k].payload).Some?
  }

  /** Every upsert of these deltas parses, installed or not. */
  ghost predicate UpsertsParse(scan: Scan, ds: seq<Delta>)
    requires AllWellFormed(scan, ds)
  {
    forall k, i :: 0 <= k < |ds| && 0 <= i < |ds[k].updates| && IsUpsert(ds[k].updates[i]) ==>
      scan.parse(ds[k].updates[i].value, ds[k].payload).Some?
  }

  /** The writes of a list of deltas are the updates of its members. */
  lemma {:induction false} WriteIsUpdate(scan: Scan, ds: seq<Delta>, m: nat) returns (j: nat, l: nat)
    requires AllWellFormed(scan, ds) && m < |AllWrites(scan, ds)|
    ensures j < |ds| && l < |ds[j].updates| && AllWrites(scan, ds)[m] == WriteOf(scan, ds[j].updates[l], ds[j].payload)
  {
    var n := |ds| - 1;
    var before := AllWrites(scan, ds[..n]);
    if m < |before| {
      j, l := WriteIsUpdate(scan, ds[..n], m);
    } else {
      j, l := n, m - |before|;
    }
  }

  lemma {:induction false} UpdateIsWrite(scan: Scan, ds: seq<Delta>, j: nat, l: nat) returns (m: nat)
    requires AllWellFormed(scan, ds) && j < |ds| && l < |ds[j].updates|
    ensures m < |AllWrites(scan, ds)| && AllWrites(scan, ds)[m] == WriteOf(scan, ds[j].updates[l], ds[j].payload)
  {
    var n := |ds| - 1;
    if j < n {
      m := UpdateIsWrite(scan, ds[..n], j, l);
    } else {
      m := |AllWrites(scan, ds[..n])| + l;
    }
  }

  /** What the replay of the deltas before `k` regards as fresh in delta `k`. */
  lemma FreshBeatsEarlier(scan: Scan, s: State, ds: seq<Delta>, k: nat, id: string, r: nat)
    requires AllWellFormed(scan, ds) && k < |ds|
    requires Fresh(PutAll(s, AllWrites(scan, ds[..k])).revs, id, r)
    ensures forall j, l :: 0 <= j < k && 0 <= l < |ds[j].updates| && IdOf(ds[j].updates[l]) == id ==>
      RevisionOf(ds[j].updates[l]) < r
  {
    RevisionsAreMaxima(s, AllWrites(scan, ds[..k]));
    forall j, l | 0 <= j < k && 0 <= l < |ds[j].updates| && IdOf(ds[j].updates[l]) == id
      ensures RevisionOf(ds[j].updates[l]) < r {
      var m := UpdateIsWrite(scan, ds[..k], j, l);
    }
  }

  lemma FreshIsNew(scan: Scan, s: State, ds: seq<Delta>, k: nat, i: nat)
    requires AllWellFormed(scan, ds) && k < |ds| && i < |ds[k].updates|
    ensures var u := ds[k].updates[i];
      Fresh(PutAll(s, AllWrites(scan, ds[..k])).revs, IdOf(u), RevisionOf(u)) <==> NewInReplay(scan, s, ds, k, i)
  {
    var u, ws := ds[k].updates[i], AllWrites(scan, ds[..k]);
    var id, r, revs := IdOf(u), RevisionOf(u), PutAll(s, ws).revs;
    RevisionsAreMaxima(s, ws);
    if Fresh(revs, id, r) {
      FreshBeatsEarlier(scan, s, ds, k, id, r);
    } else if !(id in s.revs && revs[id] == s.revs[id]) {
      var m :| 0 <= m < |ws| && ws[m].id == id && ws[m].revision == revs[id];
      var j, l := WriteIsUpdate(scan, ds[..k], m);
      assert IdOf(ds[j].updates[l]) == id && RevisionOf(ds[j].updates[l]) >= r;
    }
  }

  lemma PrefixParses(scan: Scan, s: State, ds: seq<Delta>)
    requires AllWellFormed(scan, ds) && ds != []
    ensures var n := |ds| - 1;
      ReplayParses(scan, s, ds) <==>
        ReplayParses(scan, s, ds[..n]) &&
        forall i :: 0 <= i < |ds[n].updates| && NewInReplay(scan, s, ds, n, i) && IsUpsert(ds[n].updates[i]) ==>
          scan.parse(ds[n].updates[i].value, ds[n].payload).Some?
  {
    var n := |ds| - 1;
    forall k, i | 0 <= k < n && 0 <= i < |ds[k].updates|
      ensures NewInReplay(scan, s, ds, k, i) <==> NewInReplay(scan, s, ds[..n], k, i)
    {
      SameNews(scan, s, ds, n, k, i);
    }
  }

  lemma SameNews(scan: Scan, s: State, ds: seq<Delta>, n: nat, k: nat, i: nat)
    requires AllWellFormed(scan, ds) && n <= |ds| && k < n && i < |ds[k].updates|
    ensures NewInReplay(scan, s, ds, k, i) <==> NewInReplay(scan, s, ds[..n], k, i)
  {
  }

  /** Delta `n` installs cleanly on the state before it exactly when its new upserts parse. */
  lemma CleanIffNewParse(scan: Scan, s: State, ds: seq<Delta>)
    requires AllWellFormed(scan, ds) && ds != []
    ensures var n := |ds| - 1;
      FreshUpsertsParse(scan, PutAll(s, AllWrites(scan, ds[..n])).revs, ds[n]) <==>
        forall i :: 0 <= i < |ds[n].updates| && NewInReplay(scan, s, ds, n, i) && IsUpsert(ds[n].updates[i]) ==>
          scan.parse(ds[n].updates[i].value, ds[n].payload).Some?
  {
    var n := |ds| - 1;
    forall i | 0 <= i < |ds[n].updates|
      ensures Fresh(PutAll(s, AllWrites(scan, ds[..n])).revs, IdOf(ds[n].updates[i]), RevisionOf(ds[n].updates[i]))
         <==> NewInReplay(scan, s, ds, n, i)
    {
      FreshIsNew(scan, s, ds, n, i);
    }
  }

  lemma AllWritesGrow(scan: Scan, s: State, ds: seq<Delta>)
    requires AllWellFormed(scan, ds) && ds != []
    ensures var n := |ds| - 1; var before := PutAll(s, AllWrites(scan, ds[..n]));
      && PutAll(s, AllWrites(scan, ds)) == PutAll(before, Writes(scan, ds[n]))
      && PutAll(s, AllWrites(scan, ds)).revs.Keys == before.revs.Keys + WrittenIds(Writes(scan, ds[n]))
      && |before.revs| <= |PutAll(s, AllWrites(scan, ds)).revs|
  {
    var n := |ds| - 1;
    var before := PutAll(s, AllWrites(scan, ds[..n]));
    PutAllSplit(s, AllWrites(scan, ds[..n]), Writes(scan, ds[n]));
    RevisionsAreMaxima(before, Writes(scan, ds[n]));
    FewerKeys(before.revs, PutAll(s, AllWrites(scan, ds)).revs);
  }

  /** Within the ID limit, a list of well-formed deltas replays exactly when every upsert it
      would install parses, and then it writes them all. */
  lemma {:induction false} ReplayExact(scan: Scan, s: State, ds: seq<Delta>)
    requires AllWellFormed(scan, ds)
    requires |PutAll(s, AllWrites(scan, ds)).revs| <= MAX_IDS
    ensures Replay(scan, s, ds).Some? <==> ReplayParses(scan, s, ds)
    ensures Replay(scan, s, ds).Some? ==> Replay(scan, s, ds).value == PutAll(s, AllWrites(scan, ds))
  {
    if ds != [] {
      var n := |ds| - 1;
      AllWritesGrow(scan, s, ds);
      ReplayExact(scan, s, ds[..n]);
      PrefixParses(scan, s, ds);
      CleanIffNewParse(scan, s, ds);
      var before := PutAll(s, AllWrites(scan, ds[..n]));
      var after := PutAll(s, AllWrites(scan, ds)).revs;
      assert |after| == |after.Keys|;
      ApplyExact(scan, before, ds[n]);
    }
  }

  // ---------------------------------------------------------------------------
  // The compacted history against the full run
  // ---------------------------------------------------------------------------

  /** Replaying the compacted history of an accepted run succeeds exactly when every upsert it
      would install parses; when it succeeds it gives the state of the full run. */
  lemma CompactedReplayExact(scan: Scan, s: State, ds: seq<Delta>)
    requires Valid(scan, s) && Replay(scan, s, ds).Some?
    ensures var t := Replay(scan, s, ds).value; var history := Compact(t.revs, ds);
      && AllWellFormed(scan, history)
      && (Replay(scan, s, history).Some? <==> ReplayParses(scan, s, history))
      && (Replay(scan, s, history).Some? ==> Replay(scan, s, history) == Some(t))
  {
    var t := Replay(scan, s, ds).value;
    ReplayIsWrites(scan, s, ds);
    CompactedWritesRebuild(scan, s, ds);
    RunKeepsValid(scan, s, ds);
    ReplayExact(scan, s, Compact(t.revs, ds));
  }

  lemma {:induction false} RunKeepsValid(scan: Scan, s: State, ds: seq<Delta>)
    requires Valid(scan, s) && Replay(scan, s, ds).Some?
    ensures Valid(scan, Replay(scan, s, ds).value)
    ensures forall p :: p in s.preds && p.mode == Required ==> p in Replay(scan, s, ds).value.preds
    ensures forall id :: id in s.revs ==>
      id in Replay(scan, s, ds).value.revs && s.revs[id] <= Replay(scan, s, ds).value.revs[id]
  {
    if ds != [] {
      RunKeepsValid(scan, s, ds[..|ds| - 1]);
      DeltaKeepsValid(scan, Replay(scan, s, ds[..|ds| - 1]).value, ds[|ds| - 1]);
    }
  }

  lemma {:induction false} KeptAreMembers(wanted: map<string, nat>, ds: seq<Delta>)
    ensures forall d :: d in Keep(wanted, ds).deltas ==> d in ds
  {
    if ds != [] {
      KeptAreMembers(wanted, ds[..|ds| - 1]);
      assert ds == ds[..|ds| - 1] + [ds[|ds| - 1]];
    }
  }

  lemma UpsertsOfSomeParse(scan: Scan, s: State, ds: seq<Delta>, some: seq<Delta>)
    requires AllWellFormed(scan, ds) && AllWellFormed(scan, some) && UpsertsParse(scan, ds)
    requires forall d :: d in some ==> d in ds
    ensures ReplayParses(scan, s, some)
  {
    forall k, i | 0 <= k < |some| && 0 <= i < |some[k].updates| && IsUpsert(some[k].updates[i])
      ensures scan.parse(some[k].updates[i].value, some[k].payload).Some?
    {
      assert some[k] in ds;
      var j :| 0 <= j < |ds| && ds[j] == some[k];
      assert IsUpsert(ds[j].updates[i]);
    }
  }

  /** When every upsert of the run parses, the compacted history rebuilds its state. */
  lemma CompactedReplay(scan: Scan, s: State, ds: seq<Delta>)
    requires Valid(scan, s) && Replay(scan, s, ds).Some?
    requires AllWellFormed(scan, ds) && UpsertsParse(scan, ds)
    ensures Replay(scan, s, Compact(Replay(scan, s, ds).value.revs, ds)) == Replay(scan, s, ds)
  {
    var history := Compact(Replay(scan, s, ds).value.revs, ds);
    CompactedReplayExact(scan, s, ds);
    KeptAreMembers(Replay(scan, s, ds).value.revs, ds);
    UpsertsOfSomeParse(scan, s, ds, history);
  }

  // ---------------------------------------------------------------------------
  // Runs
  // ---------------------------------------------------------------------------

  /** What the HTTP cursor carries from turn to turn. */
  datatype Cursor = Cursor(deltas: seq<Delta>, order: seq<string>)

  /** A tick, with or without a delta, or the start of a new HTTP turn. */
  datatype Event = Tick(delta: Option<Delta>) | Turn

  datatype HttpWorker = HttpWorker(current: State, cursor: Cursor)

  /** replayFilterDeltas, on top of the snapshot. */
  function Rebuild(scan: Scan, snapshot: State, cursor: Cursor): Option<State> {
    if cursor.deltas == [] then Some(snapshot)
    else
      match Replay(scan, snapshot, cursor.deltas)
      case None => None
      case Some(t) =>
        match Restore(t.preds, cursor.order)
        case None => None
        case Some(preds) => Some(State(preds, t.revs))
  }

  /** A worker that keeps its state: refused deltas change nothing, turns mean nothing. */
  function MemoryStep(scan: Scan, s: State, e: Event): State {
    if e.Turn? || e.delta.None? then s
    else match Apply(scan, s, e.delta.value) case None => s case Some(r) => r.0
  }

  /** An HTTP worker: an accepted delta is folded into the cursor, a turn starts again from the cursor. */
  function HttpStep(scan: Scan, snapshot: State, w: HttpWorker, e: Event): Option<HttpWorker> {
    match e
    case Turn =>
      (match Rebuild(scan, snapshot, w.cursor)
       case None => None
       case Some(t) => Some(w.(current := t)))
    case Tick(None) => Some(w)
    case Tick(Some(d)) =>
      (match Apply(scan, w.current, d)
       case None => Some(w)
       case Some(r) => Some(HttpWorker(r.0, Cursor(Compact(r.0.revs, w.cursor.deltas + [d]), Order(r.0.preds)))))
  }

  function MemoryRun(scan: Scan, snapshot: State, es: seq<Event>): State {
    if es == [] then snapshot
    else MemoryStep(scan, MemoryRun(scan, snapshot, es[..|es| - 1]), es[|es| - 1])
  }

  function HttpRun(scan: Scan, snapshot: State, es: seq<Event>): Option<HttpWorker> {
    if es == [] then Some(HttpWorker(snapshot, Cursor([], [])))
    else
      match HttpRun(scan, snapshot, es[..|es| - 1])
      case None => None
      case Some(w) => HttpStep(scan, snapshot, w, es[|es| - 1])
  }

  /** The deltas a run accepted, in arrival order. */
  function Accepted(scan: Scan, snapshot: State, es: seq<Event>): seq<Delta> {
    if es == [] then []
    else
      var before, e := Accepted(scan, snapshot, es[..|es| - 1]), es[|es| - 1];
      if e.Tick? && e.delta.Some? && Apply(scan, MemoryRun(scan, snapshot, es[..|es| - 1]), e.delta.value).Some?
      then before + [e.delta.value] else before
  }

  /** The state in memory is the replay of the accepted deltas. */
  lemma {:induction false} MemoryIsReplay(scan: Scan, snapshot: State, es: seq<Event>)
    ensures Replay(scan, snapshot, Accepted(scan, snapshot, es)) == Some(MemoryRun(scan, snapshot, es))
  {
    if es != [] {
      MemoryIsReplay(scan, snapshot, es[..|es| - 1]);
      var before, ds := Accepted(scan, snapshot, es[..|es| - 1]), Accepted(scan, snapshot, es);
      if ds != before { assert ds[..|ds| - 1] == before; }
    }
  }

  /** At each turn, every upsert that the compacted history would install parses. */
  ghost predicate TurnsParse(scan: Scan, snapshot: State, es: seq<Event>) {
    es == [] ||
    (var n := |es| - 1;
     TurnsParse(scan, snapshot, es[..n]) && (es[n].Turn? ==> HistoryParses(scan, snapshot, es[..n])))
  }

  ghost predicate HistoryParses(scan: Scan, snapshot: State, es: seq<Event>) {
    var history := Compact(MemoryRun(scan, snapshot, es).revs, Accepted(scan, snapshot, es));
    AllWellFormed(scan, history) && ReplayParses(scan, snapshot, history)
  }

  /** The HTTP worker mirrors the worker in memory: same state, and a cursor that is the
      compaction, from scratch, of everything accepted. */
  ghost predicate Mirrors(scan: Scan, snapshot: State, es: seq<Event>, w: HttpWorker) {
    var t := MemoryRun(scan, snapshot, es);
    && w.current == t
    && w.cursor.deltas == Compact(t.revs, Accepted(scan, snapshot, es))
    && (Accepted(scan, snapshot, es) != [] ==> w.cursor.order == Order(t.preds))
  }

  lemma AcceptedPairsWithin(scan: Scan, s: State, ds: seq<Delta>)
    requires Replay(scan, s, ds).Some?
    ensures AllPairsWithin(ds, Replay(scan, s, ds).value.revs)
  {
    ReplayIsWrites(scan, s, ds);
    var revs := Replay(scan, s, ds).value.revs;
    RevisionsAreMaxima(s, AllWrites(scan, ds));
    forall k | 0 <= k < |ds| ensures PairsWithin(PairsOf(ds[k]), revs) {
      PairsOfWellFormed(scan, ds[k]);
      forall l | 0 <= l < |PairsOf(ds[k])|
        ensures PairsOf(ds[k])[l].id in revs && PairsOf(ds[k])[l].revision <= revs[PairsOf(ds[k])[l].id] {
        var m := UpdateIsWrite(scan, ds, k, l);
        assert AllWrites(scan, ds)[m].id in WrittenIds(AllWrites(scan, ds));
      }
    }
  }

  lemma CompactionStep(scan: Scan, s: State, ds: seq<Delta>, d: Delta)
    requires Replay(scan, s, ds).Some? && Apply(scan, Replay(scan, s, ds).value, d).Some?
    ensures var t := Replay(scan, s, ds).value; var t' := Apply(scan, t, d).value.0;
      Compact(t'.revs, Compact(t.revs, ds) + [d]) == Compact(t'.revs, ds + [d])
  {
    var t := Replay(scan, s, ds).value;
    var t' := Apply(scan, t, d).value.0;
    ApplyExact(scan, t, d);
    RevisionsAreMaxima(t, Writes(scan, d));
    AcceptedPairsWithin(scan, s, ds);
    CompactingAgain(t.revs, t'.revs, ds);
    assert (Compact(t.revs, ds) + [d])[..|Compact(t.revs, ds)|] == Compact(t.revs, ds);
    assert (ds + [d])[..|ds|] == ds;
  }

  /** Folding one accepted delta into the compacted history gives the compaction from scratch: the
      first carriers of the live pairs among all accepted deltas, in arrival order. */
  lemma CompactionIsIncremental(scan: Scan, s: State, ds: seq<Delta>, d: Delta)
    requires Replay(scan, s, ds).Some? && Apply(scan, Replay(scan, s, ds).value, d).Some?
    ensures var t := Replay(scan, s, ds).value; var t' := Apply(scan, t, d).value.0;
      Compact(t'.revs, Compact(t.revs, ds) + [d]) == FirstCarriers(t'.revs, ds + [d], |ds| + 1)
  {
    CompactionStep(scan, s, ds, d);
    CompactIsFirstCarriers(Apply(scan, Replay(scan, s, ds).value, d).value.0.revs, ds + [d]);
  }

  /** An accepted tick keeps the mirror. */
  lemma TickMirrors(scan: Scan, snapshot: State, es: seq<Event>, w: HttpWorker)
    requires es != [] && es[|es| - 1].Tick? && Mirrors(scan, snapshot, es[..|es| - 1], w)
    ensures HttpStep(scan, snapshot, w, es[|es| - 1]).Some?
    ensures Mirrors(scan, snapshot, es, HttpStep(scan, snapshot, w, es[|es| - 1]).value)
  {
    var past, e := es[..|es| - 1], es[|es| - 1];
    var ds := Accepted(scan, snapshot, past);
    if e.delta.Some? && Apply(scan, w.current, e.delta.value).Some? {
      var d := e.delta.value;
      assert Accepted(scan, snapshot, es) == ds + [d];
      MemoryIsReplay(scan, snapshot, past);
      CompactionStep(scan, snapshot, ds, d);
    } else {
      assert MemoryRun(scan, snapshot, es) == w.current;
      assert Accepted(scan, snapshot, es) == ds;
    }
  }

  /** A turn rebuilds the mirrored state, and the recorded order is already the replayed one,
      exactly when every upsert the history would install parses. */
  lemma TurnExact(scan: Scan, snapshot: State, es: seq<Event>, w: HttpWorker)
    requires Valid(scan, snapshot) && Mirrors(scan, snapshot, es, w)
    ensures Rebuild(scan, snapshot, w.cursor).Some? <==> HistoryParses(scan, snapshot, es)
    ensures Rebuild(scan, snapshot, w.cursor).Some? ==> Rebuild(scan, snapshot, w.cursor) == Some(w.current)
    ensures w.cursor.deltas != [] && Replay(scan, snapshot, w.cursor.deltas).Some? ==>
      Order(Replay(scan, snapshot, w.cursor.deltas).value.preds) == w.cursor.order
  {
    MemoryIsReplay(scan, snapshot, es);
    CompactedReplayExact(scan, snapshot, Accepted(scan, snapshot, es));
    if w.cursor.deltas == [] {
      assert Replay(scan, snapshot, []) == Some(snapshot);
    }
  }

  /** Over every interleaving of ticks, accepted or refused, and turns, the HTTP worker survives
      exactly when at each turn the upserts its history would install parse, and while it
      survives its filters are those of the worker that kept them in memory. */
  lemma {:induction false} RunsAgreeExactly(scan: Scan, snapshot: State, es: seq<Event>)
    requires Valid(scan, snapshot)
    ensures HttpRun(scan, snapshot, es).Some? <==> TurnsParse(scan, snapshot, es)
    ensures HttpRun(scan, snapshot, es).Some? ==> Mirrors(scan, snapshot, es, HttpRun(scan, snapshot, es).value)
  {
    if es == [] {
      assert Accepted(scan, snapshot, es) == [];
    } else {
      var n := |es| - 1;
      RunsAgreeExactly(scan, snapshot, es[..n]);
      if HttpRun(scan, snapshot, es[..n]).Some? {
        var w := HttpRun(scan, snapshot, es[..n]).value;
        if es[n].Tick? {
          TickMirrors(scan, snapshot, es, w);
        } else {
          TurnExact(scan, snapshot, es[..n], w);
        }
      }
    }
  }

  lemma {:induction false} AcceptedGrows(scan: Scan, snapshot: State, es: seq<Event>, n: nat)
    requires n <= |es|
    ensures forall d :: d in Accepted(scan, snapshot, es[..n]) ==> d in Accepted(scan, snapshot, es)
    decreases |es| - n
  {
    if n == |es| {
      assert es[..n] == es;
    } else {
      AcceptedGrows(scan, snapshot, es, n + 1);
      assert es[..n + 1][..n] == es[..n];
    }
  }

  lemma OneTurnParses(scan: Scan, snapshot: State, es: seq<Event>, n: nat)
    requires Valid(scan, snapshot) && n <= |es|
    requires AllWellFormed(scan, Accepted(scan, snapshot, es)) && UpsertsParse(scan, Accepted(scan, snapshot, es))
    ensures HistoryParses(scan, snapshot, es[..n])
  {
    var ds := Accepted(scan, snapshot, es[..n]);
    MemoryIsReplay(scan, snapshot, es[..n]);
    CompactedReplayExact(scan, snapshot, ds);
    KeptAreMembers(MemoryRun(scan, snapshot, es[..n]).revs, ds);
    AcceptedGrows(scan, snapshot, es, n);
    UpsertsOfSomeParse(scan, snapshot, Accepted(scan, snapshot, es),
      Compact(MemoryRun(scan, snapshot, es[..n]).revs, ds));
  }

  lemma {:induction false} AllTurnsParse(scan: Scan, snapshot: State, es: seq<Event>, n: nat)
    requires Valid(scan, snapshot) && n <= |es|
    requires AllWellFormed(scan, Accepted(scan, snapshot, es)) && UpsertsParse(scan, Accepted(scan, snapshot, es))
    ensures TurnsParse(scan, snapshot, es[..n])
  {
    if n != 0 {
      AllTurnsParse(scan, snapshot, es, n - 1);
      OneTurnParses(scan, snapshot, es, n - 1);
      assert es[..n][..n - 1] == es[..n - 1];
    }
  }

  /** When every accepted upsert parses, no turn ever fails: under any interleaving the HTTP
      worker has the filters of the worker in memory, from a cursor of at most one delta per known ID. */
  lemma HttpRefinesMemory(scan: Scan, snapshot: State, es: seq<Event>)
    requires Valid(scan, snapshot)
    requires AllWellFormed(scan, Accepted(scan, snapshot, es)) && UpsertsParse(scan, Accepted(scan, snapshot, es))
    ensures HttpRun(scan, snapshot, es).Some?
    ensures HttpRun(scan, snapshot, es).value.current == MemoryRun(scan, snapshot, es)
    ensures |HttpRun(scan, snapshot, es).value.cursor.deltas| <= |MemoryRun(scan, snapshot, es).revs| <= MAX_IDS
  {
    AllTurnsParse(scan, snapshot, es, |es|);
    assert es[..|es|] == es;
    RunsAgreeExactly(scan, snapshot, es);
    KeepShrinks(MemoryRun(scan, snapshot, es).revs, Accepted(scan, snapshot, es));
    MemoryIsReplay(scan, snapshot, es);
    RunKeepsValid(scan, snapshot, Accepted(scan, snapshot, es));
  }

  /** After every interleaving the cursor holds exactly the first carriers of the live pairs among
      the accepted deltas, in arrival order. */
  lemma CursorHoldsFirstCarriers(scan: Scan, snapshot: State, es: seq<Event>)
    requires Valid(scan, snapshot) && HttpRun(scan, snapshot, es).Some?
    ensures var ds := Accepted(scan, snapshot, es);
      HttpRun(scan, snapshot, es).value.cursor.deltas == FirstCarriers(MemoryRun(scan, snapshot, es).revs, ds, |ds|)
  {
    RunsAgreeExactly(scan, snapshot, es);
    CompactIsFirstCarriers(MemoryRun(scan, snapshot, es).revs, Accepted(scan, snapshot, es));
  }
}
