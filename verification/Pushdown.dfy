/** The `PushdownFilters` object of a scan and the stream history around it, as the worker runs
    them: in-place list compaction, loops over updates and maps that shrink, each proved against
    the functions of FilterState, FilterHistory and FilterRuns. */
module Pushdown {
  import opened Wrappers
  import opened FilterExpr
  import opened FilterState
  import opened FilterHistory
  import opened FilterOrder
  import opened FilterRuns

  function ProjectPreds(preds: seq<Predicate>): (fs: seq<Filter>)
    ensures |fs| == |preds| && forall i :: 0 <= i < |fs| ==> fs[i] == Project(preds[i].expr)
  {
    seq(|preds|, i requires 0 <= i < |preds| => Project(preds[i].expr))
  }

  /** removeV2Predicate: compacts the first `n` elements in place and returns how many are left. */
  method RemoveInPlace(values: array<Predicate>, n: nat, id: string) returns (m: nat)
    requires n <= values.Length
    modifies values
    ensures m <= n
    ensures values[..m] == Without(old(values[..n]), id)
    ensures values[n..] == old(values[n..])
  {
    m := 0;
    ghost var was := values[..n];
    for i := 0 to n
      invariant m <= i
      invariant values[..m] == Without(was[..i], id)
      invariant forall k :: i <= k < values.Length ==> values[k] == old(values[k])
    {
      var v := values[i];
      assert v == was[i] && was[..i + 1][..i] == was[..i];
      if v.id != id {
        ghost var front := values[..m];
        values[m] := v;
        assert values[..m + 1] == front + [v];
        m := m + 1;
      }
    }
    assert was[..n] == was;
  }

  lemma {:induction false} RefusedForGood(scan: Scan, s: State, d: Delta, n: nat, m: nat)
    requires n <= m <= |d.updates| && Steps(scan, s, d, n).None?
    ensures Steps(scan, s, d, m).None?
  {
    if n < m { RefusedForGood(scan, s, d, n, m - 1); }
  }

  ghost function LiveIds(preds: seq<Predicate>): set<string> {
    if preds == [] then {} else LiveIds(preds[..|preds| - 1]) + {preds[|preds| - 1].id}
  }

  ghost function RequiredIds(preds: seq<Predicate>): set<string> {
    if preds == [] then {}
    else RequiredIds(preds[..|preds| - 1]) + (if preds[|preds| - 1].mode == Required then {preds[|preds| - 1].id}
      else {})
  }

  lemma {:induction false} LiveIdsMembers(preds: seq<Predicate>)
    ensures forall k :: 0 <= k < |preds| ==> preds[k].id in LiveIds(preds)
    ensures forall id :: id in LiveIds(preds) ==> exists k :: 0 <= k < |preds| && preds[k].id == id
    ensures forall k :: 0 <= k < |preds| && preds[k].mode == Required ==> preds[k].id in RequiredIds(preds)
    ensures forall id :: id in RequiredIds(preds) ==>
      exists k :: 0 <= k < |preds| && preds[k].id == id && preds[k].mode == Required
  {
    if preds != [] {
      var n := |preds| - 1;
      LiveIdsMembers(preds[..n]);
      assert forall k :: 0 <= k < n ==> preds[..n][k] == preds[k];
    }
  }

  lemma DistinctOneMore(preds: seq<Predicate>, p: Predicate)
    requires DistinctIds(preds) && p.id !in LiveIds(preds)
    ensures DistinctIds(preds + [p])
  {
    LiveIdsMembers(preds);
  }

  lemma SnapshotIsValid(scan: Scan, s: State)
    requires DistinctIds(s.preds) && s.revs.Keys == LiveIds(s.preds) && |s.revs| <= MAX_IDS
    requires (forall id :: id in s.revs ==> s.revs[id] == 0) && forall k :: 0 <= k < |s.preds| ==>
      s.preds[k].revision == 0
    requires scan.required == RequiredIds(s.preds)
    ensures Valid(scan, s)
  {
    LiveIdsMembers(s.preds);
    forall p | p in s.preds
      ensures p.id in s.revs && s.revs[p.id] == p.revision && (p.mode == Required <==> p.id in scan.required)
    {
      var k :| 0 <= k < |s.preds| && s.preds[k] == p;
    }
    forall id | id in scan.required ensures exists p :: p in s.preds && p.id == id {
      var k :| 0 <= k < |s.preds| && s.preds[k].id == id;
      assert s.preds[k] in s.preds;
    }
  }

  /** The parsed snapshot predicates that load: all parse, at revision zero, with distinct IDs. */
  ghost predicate Loadable(parsed: seq<Option<Predicate>>) {
    && |parsed| <= MAX_SNAPSHOT
    && (forall i :: 0 <= i < |parsed| ==> parsed[i].Some? && parsed[i].value.revision == 0)
    && (forall i, j :: 0 <= i < j < |parsed| ==> parsed[i].value.id != parsed[j].value.id)
  }

  lemma LoadableExactly(parsed: seq<Option<Predicate>>)
    ensures Loadable(parsed) <==>
      && |parsed| <= 1024
      && (forall i :: 0 <= i < |parsed| ==> parsed[i].Some? && parsed[i].value.revision == 0)
      && (forall i, j :: 0 <= i < j < |parsed| ==> parsed[i].value.id != parsed[j].value.id)
  {
  }

  /** The first `i` predicates are loaded. */
  ghost predicate Loaded(parsed: seq<Option<Predicate>>, i: nat, s: State, required: set<string>)
    requires i <= |parsed|
  {
    && |s.preds| == i == |s.revs|
    && (forall k :: 0 <= k < i ==> parsed[k].Some? && parsed[k].value == s.preds[k] && s.preds[k].revision == 0)
    && DistinctIds(s.preds)
    && s.revs.Keys == LiveIds(s.preds)
    && (forall id :: id in s.revs ==> s.revs[id] == 0)
    && required == RequiredIds(s.preds)
  }

  lemma RepeatedIdDoesNotLoad(parsed: seq<Option<Predicate>>, i: nat, s: State, required: set<string>)
    requires i < |parsed| && Loaded(parsed, i, s, required)
    requires parsed[i].Some? && parsed[i].value.id in s.revs
    ensures !Loadable(parsed)
  {
    LiveIdsMembers(s.preds);
    var k :| 0 <= k < i && s.preds[k].id == parsed[i].value.id;
    assert parsed[k].value.id == parsed[i].value.id;
  }

  lemma LoadOneMore(parsed: seq<Option<Predicate>>, i: nat, s: State, required: set<string>)
    requires i < |parsed| && Loaded(parsed, i, s, required)
    requires parsed[i].Some? && parsed[i].value.revision == 0 && parsed[i].value.id !in s.revs
    ensures var p := parsed[i].value;
      Loaded(parsed, i + 1, State(s.preds + [p], s.revs[p.id := 0]), if p.mode == Required then required + {p.id}
        else required)
  {
    var p := parsed[i].value;
    DistinctOneMore(s.preds, p);
    var revs := s.revs[p.id := 0];
    assert revs.Keys == s.revs.Keys + {p.id};
    assert |revs.Keys| == |revs| && |s.revs.Keys| == |s.revs|;
    var preds := s.preds + [p];
    assert preds[..i] == s.preds;
    forall k | 0 <= k < i + 1 ensures parsed[k].Some? && parsed[k].value == preds[k] && preds[k].revision == 0 {
      if k < i { assert preds[k] == s.preds[k]; }
    }
  }

  lemma LoadedIsValid(parsed: seq<Option<Predicate>>, s: State, scan: Scan)
    requires Loaded(parsed, |parsed|, s, scan.required) && |parsed| <= MAX_SNAPSHOT
    ensures Loadable(parsed) && Valid(scan, s)
  {
    SnapshotIsValid(scan, s);
    forall i, j | 0 <= i < j < |parsed| ensures parsed[i].value.id != parsed[j].value.id {
      assert s.preds[i].id != s.preds[j].id;
    }
  }

  /** The set-up of `deserializeFiltersV2` from parsed predicates (`None` where one does not parse). */
  method LoadSnapshot(parsed: seq<Option<Predicate>>, context: string, parse: (UpdateObject, string) -> Option<V2Expr>)
    returns (r: Option<(Scan, State)>)
    ensures r.Some? <==> Loadable(parsed)
    ensures r.Some? ==> Valid(r.value.0, r.value.1) && Loaded(parsed, |parsed|, r.value.1, r.value.0.required)
    ensures r.Some? ==> r.value.0.context == context && r.value.0.parse == parse
  {
    if |parsed| > MAX_SNAPSHOT { return None; }
    var preds: seq<Predicate>, revs: map<string, nat>, required: set<string> := [], map[], {};
    for i := 0 to |parsed|
      invariant Loaded(parsed, i, State(preds, revs), required)
    {
      if parsed[i].None? { return None; }
      if parsed[i].value.revision != 0 { return None; }
      var p := parsed[i].value;
      if p.id in revs {
        RepeatedIdDoesNotLoad(parsed, i, State(preds, revs), required);
        return None;
      }
      LoadOneMore(parsed, i, State(preds, revs), required);
      revs := revs[p.id := 0];
      if p.mode == Required { required := required + {p.id}; }
      preds := preds + [p];
    }
    LoadedIsValid(parsed, State(preds, revs), Scan(context, required, parse));
    return Some((Scan(context, required, parse), State(preds, revs)));
  }

  /** One well-shaped update on the working list, in place; `ok` is false when a fresh upsert does not parse. */
  method InstallUpdate(scan: Scan, next: array<Predicate>, n: nat, revs: map<string, nat>,
                       u: Option<UpdateObject>, payload: string)
    returns (ok: bool, m: nat, newRevs: map<string, nat>)
    requires ShapeOk(u) && n < next.Length
    modifies next
    ensures ok <==> Update(scan, State(old(next[..n]), revs), u, payload).Some?
    ensures m <= n + 1
    ensures ok ==> Update(scan, State(old(next[..n]), revs), u, payload).value == State(next[..m], newRevs)
  {
    var id, revision := IdOf(u), RevisionOf(u);
    ok, m, newRevs := true, n, revs;
    if !Fresh(revs, id, revision) { return; }
    if !IsUpsert(u) {
      m := RemoveInPlace(next, n, id);
    } else {
      var parsed := scan.parse(u.value, payload);
      if parsed.None? { ok := false; return; }
      m := RemoveInPlace(next, n, id);
      next[m] := Predicate(id, revision, Advisory, parsed.value);
      m := m + 1;
      assert next[..m] == next[..m - 1] + [next[m - 1]];
    }
    newRevs := revs[id := revision];
  }

  /** The update loop of applyDelta, on a working copy of the list. */
  method RunUpdates(scan: Scan, next: array<Predicate>, n0: nat, revs0: map<string, nat>, d: Delta)
    returns (ok: bool, n: nat, revs: map<string, nat>, pairs: seq<PredicateRevision>)
    requires n0 + |d.updates| <= next.Length
    modifies next
    ensures n <= next.Length
    ensures ok <==> Steps(scan, State(old(next[..n0]), revs0), d, |d.updates|).Some?
    ensures ok ==>
      var p := Steps(scan, State(old(next[..n0]), revs0), d, |d.updates|).value;
      p.state == State(next[..n], revs) && p.carried == pairs
  {
    ghost var s := State(next[..n0], revs0);
    var seen: set<string> := {};
    n, revs, pairs := n0, revs0, [];
    for i := 0 to |d.updates|
      invariant n <= n0 + i
      invariant Steps(scan, s, d, i) == Some(Progress(State(next[..n], revs), seen, pairs))
    {
      var u := d.updates[i];
      if !ShapeOk(u) || IdOf(u) in seen || IdOf(u) in scan.required {
        RefusedForGood(scan, s, d, i + 1, |d.updates|);
        return false, n, revs, pairs;
      }
      var installed, m, newRevs := InstallUpdate(scan, next, n, revs, u, d.payload);
      if !installed {
        RefusedForGood(scan, s, d, i + 1, |d.updates|);
        return false, n, revs, pairs;
      }
      n, revs := m, newRevs;
      seen, pairs := seen + {IdOf(u)}, pairs + [PredicateRevision(IdOf(u), RevisionOf(u))];
    }
    ok := true;
  }

  class PushdownFilters {
    const scan: Scan
    // the live predicates are backing[..count]
    var backing: array<Predicate>
    var count: nat
    var revs: map<string, nat>
    var filters: seq<Filter>

    ghost predicate Consistent()
      reads this, backing
    {
      && count <= backing.Length
      && filters == ProjectPreds(backing[..count])
    }

    ghost function Abs(): State
      reads this, backing
      requires count <= backing.Length
    {
      State(backing[..count], revs)
    }

    constructor (scan: Scan, s: State)
      ensures Consistent() && Abs() == s && this.scan == scan
      ensures fresh(backing)
    {
      this.scan := scan;
      backing := new Predicate[|s.preds|](i requires 0 <= i < |s.preds| => s.preds[i]);
      count := |s.preds|;
      revs := s.revs;
      filters := ProjectPreds(s.preds);
    }

    /** applyDelta: the whole delta or none of it. The old list is never written to, so a refused
        delta leaves every field as it was. */
    method ApplyDelta(d: Delta) returns (carried: Option<seq<PredicateRevision>>)
      requires Consistent()
      modifies this
      ensures Consistent()
      ensures old(backing)[..] == old(backing[..])
      ensures var a := Apply(scan, old(Abs()), d);
        if a.None? then carried.None? && Abs() == old(Abs()) && backing == old(backing) && filters == old(filters)
        else carried == Some(a.value.1) && Abs() == a.value.0 && fresh(backing)
    {
      if !HeaderOk(scan, d) { return None; }
      var next := new Predicate[count + |d.updates|];
      forall i | 0 <= i < count { next[i] := backing[i]; }
      assert next[..count] == backing[..count];
      var ok, n, nextRevs, pairs := RunUpdates(scan, next, count, revs, d);
      if !ok || |nextRevs| > MAX_IDS { return None; }
      backing, count, revs := next, n, nextRevs;
      filters := ProjectPreds(next[..n]);
      return Some(pairs);
    }

    /** restorePredicateOrder: the recorded order, or no change when it does not name the live IDs. */
    method RestorePredicateOrder(order: seq<string>) returns (ok: bool)
      requires Consistent()
      modifies this
      ensures Consistent()
      ensures var r := Restore(old(Abs()).preds, order);
        ok == r.Some? && Abs() == if ok then State(r.value, old(revs)) else old(Abs())
    {
      var preds := backing[..count];
      if Order(preds) == order { return true; }
      var byId: map<string, Predicate> := map[];
      for i := 0 to |preds|
        invariant byId == ById(preds[..i])
      {
        byId := byId[preds[i].id := preds[i]];
        assert preds[..i + 1][..i] == preds[..i];
      }
      assert preds[..|preds|] == preds;
      if |order| != |byId| { return false; }
      var arranged := Pick(byId, order);
      if arranged.None? { return false; }
      var next := arranged.value;
      backing := new Predicate[|next|](i requires 0 <= i < |next| => next[i]);
      count := |next|;
      assert backing[..count] == next;
      filters := ProjectPreds(next);
      return true;
    }
  }

  /** The loop of restorePredicateOrder: takes the IDs out of the map one by one. */
  method Pick(byId: map<string, Predicate>, order: seq<string>) returns (r: Option<seq<Predicate>>)
    ensures r == Arrange(byId, order)
  {
    var left, next: seq<Predicate> := byId, [];
    assert order[0..] == order;
    if Arrange(byId, order).Some? { assert [] + Arrange(byId, order).value == Arrange(byId, order).value; }
    for i := 0 to |order|
      invariant var rest := Arrange(left, order[i..]);
        Arrange(byId, order) == if rest.None? then None else Some(next + rest.value)
    {
      if order[i] !in left { return None; }
      assert order[i..][0] == order[i] && order[i..][1..] == order[i + 1..];
      ghost var tail := Arrange(left - {order[i]}, order[i + 1..]);
      if tail.Some? { assert next + ([left[order[i]]] + tail.value) == next + [left[order[i]]] + tail.value; }
      next := next + [left[order[i]]];
      left := left - {order[i]};
    }
    assert order[|order|..] == [];
    assert next + [] == next;
    return Some(next);
  }

  /** The inner loop of recordFilterDelta: strikes out the wanted pairs a delta carries. */
  method Strike(wanted: map<string, nat>, pairs: seq<PredicateRevision>) returns (left: map<string, nat>, needed: bool)
    ensures left == wanted - Hits(wanted, pairs)
    ensures needed <==> Hits(wanted, pairs) != {}
  {
    left, needed := wanted, false;
    for i := 0 to |pairs|
      invariant left == wanted - Hits(wanted, pairs[..i])
      invariant needed <==> Hits(wanted, pairs[..i]) != {}
    {
      HitsOneMore(wanted, pairs, i);
      if pairs[i].id in left && left[pairs[i].id] == pairs[i].revision {
        left := left - {pairs[i].id};
        needed := true;
      }
    }
    assert pairs[..|pairs|] == pairs;
  }

  lemma HitsOneMore(wanted: map<string, nat>, pairs: seq<PredicateRevision>, i: nat)
    requires i < |pairs|
    ensures var p := pairs[i];
      Hits(wanted, pairs[..i + 1]) ==
        Hits(wanted, pairs[..i]) + (if p.id in wanted && wanted[p.id] == p.revision then {p.id} else {})
  {
    var more, less := pairs[..i + 1], pairs[..i];
    assert forall k :: 0 <= k < i ==> more[k] == less[k];
    assert more[i] == pairs[i];
  }

  /** recordFilterDelta: the compacted history with one more delta, or `None` when a recorded delta cannot be read. */
  method RecordFilterDelta(revs: map<string, nat>, history: seq<Delta>, delta: Delta, carried: seq<PredicateRevision>)
    returns (kept: Option<seq<Delta>>)
    requires carried == PairsOf(delta)
    ensures kept.Some? <==> forall i :: 0 <= i < |history| ==> DeltaRevisions(history[i]).Some?
    ensures kept.Some? ==> kept.value == Compact(revs, history + [delta])
  {
    var wanted, deltas: seq<Delta> := revs, [];
    for i := 0 to |history|
      invariant Keep(revs, history[..i]) == Kept(deltas, wanted)
      invariant forall k :: 0 <= k < i ==> DeltaRevisions(history[k]).Some?
    {
      var pairs := DeltaRevisions(history[i]);
      if pairs.None? { return None; }
      KeepPrefix(revs, history, i);
      var left, needed := Strike(wanted, pairs.value);
      wanted := left;
      if needed { deltas := deltas + [history[i]]; }
    }
    assert history[..|history|] == history;
    KeepLast(revs, history, delta);
    var _, needed := Strike(wanted, carried);
    return Some(if needed then deltas + [delta] else deltas);
  }

  lemma KeepPrefix(revs: map<string, nat>, ds: seq<Delta>, i: nat)
    requires i < |ds|
    ensures Keep(revs, ds[..i + 1]) == KeepOne(Keep(revs, ds[..i]), ds[i])
  {
    assert ds[..i + 1][..i] == ds[..i];
  }

  lemma KeepLast(revs: map<string, nat>, ds: seq<Delta>, d: Delta)
    ensures Keep(revs, ds + [d]) == KeepOne(Keep(revs, ds), d)
  {
    assert (ds + [d])[..|ds|] == ds;
  }

  ghost predicate Readable(ds: seq<Delta>) {
    forall i :: 0 <= i < |ds| ==> DeltaRevisions(ds[i]).Some?
  }

  lemma AcceptedIsReadable(scan: Scan, s: State, d: Delta)
    requires Apply(scan, s, d).Some?
    ensures DeltaRevisions(d).Some? && PairsOf(d) == Apply(scan, s, d).value.1
  {
    ApplyExact(scan, s, d);
    PairsOfWellFormed(scan, d);
  }

  lemma {:induction false} KeptIsReadable(revs: map<string, nat>, ds: seq<Delta>)
    requires Readable(ds)
    ensures Readable(Compact(revs, ds))
  {
    if ds != [] { KeptIsReadable(revs, ds[..|ds| - 1]); }
  }

  /** The loop of replayFilterDeltas. */
  method ReplayAll(pf: PushdownFilters, ds: seq<Delta>) returns (ok: bool)
    requires pf.Consistent()
    modifies pf
    ensures pf.Consistent()
    ensures pf.backing == old(pf.backing) || fresh(pf.backing)
    ensures ok <==> Replay(pf.scan, old(pf.Abs()), ds).Some?
    ensures ok ==> Replay(pf.scan, old(pf.Abs()), ds).value == pf.Abs()
  {
    for i := 0 to |ds|
      invariant pf.Consistent()
      invariant pf.backing == old(pf.backing) || fresh(pf.backing)
      invariant Replay(pf.scan, old(pf.Abs()), ds[..i]) == Some(pf.Abs())
    {
      assert ds[..i + 1][..i] == ds[..i];
      var carried := pf.ApplyDelta(ds[i]);
      if carried.None? {
        ReplayRefusedForGood(pf.scan, old(pf.Abs()), ds, i + 1);
        return false;
      }
    }
    assert ds[..|ds|] == ds;
    return true;
  }

  /** A table stream's filters and the history its HTTP cursor carries. */
  class FilterStream {
    const scan: Scan
    const snapshot: State
    var current: PushdownFilters
    var deltas: seq<Delta>
    var order: seq<string>

    ghost predicate Consistent()
      reads this, current, current.backing
    {
      && current.Consistent()
      && current.scan == scan
      && Readable(deltas)
    }

    ghost function Abs(): HttpWorker
      reads this, current, current.backing
      requires Consistent()
    {
      HttpWorker(current.Abs(), Cursor(deltas, order))
    }

    constructor (scan: Scan, snapshot: State)
      ensures Consistent() && this.scan == scan && this.snapshot == snapshot
      ensures Abs() == HttpWorker(snapshot, Cursor([], []))
      ensures fresh(current)
    {
      this.scan, this.snapshot := scan, snapshot;
      current := new PushdownFilters(scan, snapshot);
      deltas, order := [], [];
    }

    /** applyTick: applies the delta a tick carries, if any, and folds it into the history. */
    method ApplyTick(delta: Option<Delta>) returns (applied: bool)
      requires Consistent()
      modifies this, current
      ensures Consistent()
      ensures Some(Abs()) == HttpStep(scan, snapshot, old(Abs()), Tick(delta))
      ensures applied <==> delta.Some? && Apply(scan, old(Abs()).current, delta.value).Some?
    {
      if delta.None? { return false; }
      var d := delta.value;
      ghost var before := current.Abs();
      var carried := current.ApplyDelta(d);
      if carried.None? { return false; }
      AcceptedIsReadable(scan, before, d);
      var kept := RecordFilterDelta(current.revs, deltas, d, carried.value);
      KeptIsReadable(current.revs, deltas + [d]);
      deltas := kept.value;
      order := Order(current.backing[..current.count]);
      return true;
    }

    /** replayFilterDeltas on a fresh copy of the snapshot; on failure the stream is lost. */
    method StartTurn() returns (ok: bool)
      requires Consistent()
      modifies this
      ensures ok <==> HttpStep(scan, snapshot, old(Abs()), Turn).Some?
      ensures ok ==> Consistent() && Some(Abs()) == HttpStep(scan, snapshot, old(Abs()), Turn)
    {
      var pf := new PushdownFilters(scan, snapshot);
      if deltas == [] {
        current := pf;
        return true;
      }
      var replayed := ReplayAll(pf, deltas);
      if !replayed { return false; }
      ok := pf.RestorePredicateOrder(order);
      if ok { current := pf; }
    }
  }

  lemma {:induction false} ReplayRefusedForGood(scan: Scan, s: State, ds: seq<Delta>, n: nat)
    requires n <= |ds| && Replay(scan, s, ds[..n]).None?
    ensures Replay(scan, s, ds).None?
    decreases |ds| - n
  {
    if n == |ds| {
      assert ds[..n] == ds;
    } else {
      assert ds[..n + 1][..n] == ds[..n];
      ReplayRefusedForGood(scan, s, ds, n + 1);
    }
  }
}
