/** Aggregate requests of many worker processes in flight at once: each loads the groups of its batch,
    computes, and saves, without a lock (vgi/aggregate_protocol.go, vgi/aggregate_storage.go). When
    such runs compute what the requests would one after another, exactly. */
module AggregateRuns {
  import opened Aggregate
  import opened AggregateRpc

  // ---------------------------------------------------------------------------
  // Requests in flight
  // ---------------------------------------------------------------------------

  /** A request between its load and its save: its steps and what it loaded. */
  datatype Request<S, R> = Request(steps: seq<Step<R>>, loaded: Store<S>)

  /** The store, and the requests that worker processes are working on. */
  datatype System<S, R> = System(store: Store<S>, inFlight: map<nat, Request<S, R>>)

  datatype Event<R> = Begin(id: nat, steps: seq<Step<R>>) | End(id: nat)

  /** What a request saves: every group it wrote that has a state. */
  function ToSave<S, R>(agg: Agg<S, R>, r: Request<S, R>): Store<S> {
    Part(Exec(agg, r.loaded, r.steps), Written(r.steps))
  }

  function Next<S, R>(agg: Agg<S, R>, s: System<S, R>, e: Event<R>): System<S, R> {
    match e
    case Begin(id, steps) => s.(inFlight := s.inFlight[id := Request(steps, Part(s.store, Footprint(steps)))])
    case End(id) =>
      if id !in s.inFlight then s
      else System(s.store + ToSave(agg, s.inFlight[id]), s.inFlight - {id})
  }

  function RunEvents<S, R>(agg: Agg<S, R>, es: seq<Event<R>>): System<S, R> {
    if es == [] then System(map[], map[]) else Next(agg, RunEvents(agg, es[..|es| - 1]), es[|es| - 1])
  }

  predicate Completes<S, R>(s: System<S, R>, e: Event<R>) {
    e.End? && e.id in s.inFlight
  }

  /** The steps of the completed requests, in the order of completion. */
  function Completed<S, R>(agg: Agg<S, R>, es: seq<Event<R>>): seq<Step<R>> {
    if es == [] then []
    else
      var before, e := RunEvents(agg, es[..|es| - 1]), es[|es| - 1];
      Completed(agg, es[..|es| - 1]) + (if Completes(before, e) then before.inFlight[e.id].steps else [])
  }

  /** The store is what the completed requests make of the empty store one after another. */
  ghost predicate Serial<S, R>(agg: Agg<S, R>, es: seq<Event<R>>) {
    RunEvents(agg, es).store == Exec(agg, map[], Completed(agg, es))
  }

  /** At every moment of the run. */
  ghost predicate AlwaysSerial<S, R>(agg: Agg<S, R>, es: seq<Event<R>>) {
    Serial(agg, es) && (es != [] ==> AlwaysSerial(agg, es[..|es| - 1]))
  }

  /** Saving now what was computed from the loads is applying the steps to the store as it is now. */
  ghost predicate Atomic<S, R>(agg: Agg<S, R>, m: Store<S>, r: Request<S, R>) {
    m + ToSave(agg, r) == Exec(agg, m, r.steps)
  }

  lemma {:induction false} ExecSplit<S, R>(agg: Agg<S, R>, m: Store<S>, a: seq<Step<R>>, b: seq<Step<R>>)
    ensures Exec(agg, m, a + b) == Exec(agg, Exec(agg, m, a), b)
  {
    if b == [] {
      assert a + b == a;
    } else {
      assert (a + b)[..|a + b| - 1] == a + b[..|b| - 1];
      ExecSplit(agg, m, a, b[..|b| - 1]);
    }
  }

  /** A serial run stays serial exactly when the request that completes takes effect atomically. */
  lemma SerialOneMore<S, R>(agg: Agg<S, R>, es: seq<Event<R>>)
    requires es != [] && Serial(agg, es[..|es| - 1])
    ensures var s, e := RunEvents(agg, es[..|es| - 1]), es[|es| - 1];
      Serial(agg, es) <==> (Completes(s, e) ==> Atomic(agg, s.store, s.inFlight[e.id]))
  {
    var n := |es| - 1;
    var s, e := RunEvents(agg, es[..n]), es[n];
    if Completes(s, e) {
      ExecSplit(agg, map[], Completed(agg, es[..n]), s.inFlight[e.id].steps);
    } else {
      assert Completed(agg, es) == Completed(agg, es[..n]);
    }
  }

  // ---------------------------------------------------------------------------
  // Loads that are current when the request saves
  // ---------------------------------------------------------------------------

  /** Every group the request loaded is still as it loaded it. */
  ghost predicate CurrentAt<S, R>(m: Store<S>, r: Request<S, R>) {
    r.loaded == Part(m, Footprint(r.steps))
  }

  /** Every request that completes has current loads, as a compare-and-swap of all its groups
      would find; one that never saves does not matter. */
  ghost predicate Fresh<S, R>(agg: Agg<S, R>, es: seq<Event<R>>) {
    es == [] ||
    var s, e := RunEvents(agg, es[..|es| - 1]), es[|es| - 1];
    Fresh(agg, es[..|es| - 1]) && (Completes(s, e) ==> CurrentAt(s.store, s.inFlight[e.id]))
  }

  /** Ending a request whose loads are current applies its steps to the store as it is now. */
  lemma EndIsAtomic<S, R>(agg: Agg<S, R>, m: Store<S>, r: Request<S, R>)
    requires CurrentAt(m, r)
    ensures Atomic(agg, m, r)
  {
    StepsAreLocal(agg, m, r.steps, Footprint(r.steps));
    SavingWrittenIsEnough(agg, m, r.steps, Footprint(r.steps), ToSave(agg, r));
  }

  /** Serializability, for every aggregate whatever: however loads and saves of requests from
      different processes interleave, if each request that completes has current loads the store is
      at every moment what the completed requests make of the empty store one after another. */
  lemma {:induction false} InterleavingIsSerial<S, R>(agg: Agg<S, R>, es: seq<Event<R>>)
    requires Fresh(agg, es)
    ensures AlwaysSerial(agg, es)
  {
    if es != [] {
      var n := |es| - 1;
      InterleavingIsSerial(agg, es[..n]);
      SerialOneMore(agg, es);
      var s, e := RunEvents(agg, es[..n]), es[n];
      if Completes(s, e) { EndIsAtomic(agg, s.store, s.inFlight[e.id]); }
    }
  }

  /** A new request gets an unused number, and none saves a group that another one in flight has
      loaded; requests may share the groups they only read. */
  ghost predicate Allowed<S, R>(s: System<S, R>, e: Event<R>) {
    match e
    case Begin(id, _) => id !in s.inFlight
    case End(id) => id in s.inFlight ==>
      forall other :: other in s.inFlight && other != id ==>
        Written(s.inFlight[id].steps) !! Footprint(s.inFlight[other].steps)
  }

  /** What an engine can do without looking at states: keep conflicting requests apart. */
  ghost predicate Disciplined<S, R>(agg: Agg<S, R>, es: seq<Event<R>>) {
    es == [] ||
    (Disciplined(agg, es[..|es| - 1]) && Allowed(RunEvents(agg, es[..|es| - 1]), es[|es| - 1]))
  }

  ghost predicate AllCurrent<S, R>(s: System<S, R>) {
    forall id :: id in s.inFlight ==> CurrentAt(s.store, s.inFlight[id])
  }

  lemma SamePart<S>(a: Store<S>, b: Store<S>, gids: set<int>)
    requires forall g :: g in gids ==> Get(a, g) == Get(b, g)
    ensures Part(a, gids) == Part(b, gids)
  {
    forall g ensures Get(Part(a, gids), g) == Get(Part(b, gids), g) {
      if g in gids { assert Get(a, g) == Get(b, g); }
    }
    SameGets(Part(a, gids), Part(b, gids));
  }

  lemma AllowedKeepsCurrent<S, R>(agg: Agg<S, R>, s: System<S, R>, e: Event<R>)
    requires AllCurrent(s) && Allowed(s, e)
    ensures AllCurrent(Next(agg, s, e))
  {
    var t := Next(agg, s, e);
    forall k | k in t.inFlight ensures CurrentAt(t.store, t.inFlight[k]) {
      if e.End? { SamePart(s.store, t.store, Footprint(t.inFlight[k].steps)); }
    }
  }

  lemma {:induction false} DisciplinedIsFresh<S, R>(agg: Agg<S, R>, es: seq<Event<R>>)
    requires Disciplined(agg, es)
    ensures Fresh(agg, es) && AllCurrent(RunEvents(agg, es))
  {
    if es != [] {
      DisciplinedIsFresh(agg, es[..|es| - 1]);
      AllowedKeepsCurrent(agg, RunEvents(agg, es[..|es| - 1]), es[|es| - 1]);
    }
  }

  // ---------------------------------------------------------------------------
  // The loads that matter
  // ---------------------------------------------------------------------------

  /** The groups merged into others. */
  function Sources<R>(steps: seq<Step<R>>): set<int> {
    if steps == [] then {}
    else
      var last := steps[|steps| - 1];
      Sources(steps[..|steps| - 1]) + (if last.Merge? then {last.src} else {})
  }

  predicate Unchanged<S(==)>(a: Store<S>, b: Store<S>, g: int) {
    Get(a, g) == Get(b, g)
  }

  /** The groups the request merges from and the groups it saves are as it loaded them. A target
      that got no state is not saved, so it may change meanwhile. */
  ghost predicate Intact<S, R>(agg: Agg<S, R>, m: Store<S>, r: Request<S, R>) {
    forall g :: g in Sources(r.steps) || g in ToSave(agg, r) ==> Unchanged(r.loaded, m, g)
  }

  ghost predicate AllIntact<S, R>(agg: Agg<S, R>, es: seq<Event<R>>) {
    es == [] ||
    var s, e := RunEvents(agg, es[..|es| - 1]), es[|es| - 1];
    AllIntact(agg, es[..|es| - 1]) && (Completes(s, e) ==> Intact(agg, s.store, s.inFlight[e.id]))
  }

  lemma {:induction false} SourcesAreTouched<R>(steps: seq<Step<R>>)
    ensures Sources(steps) + Written(steps) == Footprint(steps)
  {
    if steps != [] { SourcesAreTouched(steps[..|steps| - 1]); }
  }

  lemma CurrentIsIntact<S, R>(agg: Agg<S, R>, m: Store<S>, r: Request<S, R>)
    requires CurrentAt(m, r)
    ensures Intact(agg, m, r)
  {
    SourcesAreTouched(r.steps);
  }

  lemma {:induction false} FreshIsIntact<S, R>(agg: Agg<S, R>, es: seq<Event<R>>)
    requires Fresh(agg, es)
    ensures AllIntact(agg, es)
  {
    if es != [] {
      var n := |es| - 1;
      FreshIsIntact(agg, es[..n]);
      var s, e := RunEvents(agg, es[..n]), es[n];
      if Completes(s, e) { CurrentIsIntact(agg, s.store, s.inFlight[e.id]); }
    }
  }

  /** Two stores that agree on the groups outside `idle`. */
  ghost predicate AgreeOutside<S>(a: Store<S>, b: Store<S>, gids: set<int>, idle: set<int>) {
    forall g :: g in gids && g !in idle ==> Unchanged(a, b, g)
  }

  /** No step merges from an idle group, and none gives one a state from the loads. */
  ghost predicate Idle<S, R>(agg: Agg<S, R>, m: Store<S>, steps: seq<Step<R>>, idle: set<int>) {
    idle !! Sources(steps) && idle !! Exec(agg, m, steps).Keys
  }

  lemma IdleStep<S(!new), R(!new)>(agg: Agg<S, R>, a: Store<S>, b: Store<S>, step: Step<R>,
                                   gids: set<int>, idle: set<int>)
    requires Lawful(agg) && Touches(step) <= gids && AgreeOutside(a, b, gids, idle)
    requires (step.Merge? ==> step.src !in idle) && idle !! Exec1(agg, a, step).Keys && idle !! a.Keys
    ensures AgreeOutside(Exec1(agg, a, step), Exec1(agg, b, step), gids, idle)
    ensures forall g :: g in idle ==> Unchanged(Exec1(agg, b, step), b, g)
  {
    match step
    case Row(gid, row) => if gid !in idle { assert Unchanged(a, b, gid); }
    case Merge(src, tgt) =>
      assert Unchanged(a, b, src);
      if tgt in idle {
        assert src !in a;
        if tgt in b { assert UnitLaw(agg, b[tgt]); }
      } else {
        assert Unchanged(a, b, tgt);
      }
      forall g | g in gids && g !in idle ensures Unchanged(Exec1(agg, a, step), Exec1(agg, b, step), g) {
        assert Unchanged(a, b, g);
      }
  }

  lemma {:induction false} IdleSteps<S(!new), R(!new)>(agg: Agg<S, R>, a: Store<S>, b: Store<S>, steps: seq<Step<R>>,
                                                       gids: set<int>, idle: set<int>)
    requires Lawful(agg) && Footprint(steps) <= gids && AgreeOutside(a, b, gids, idle) && Idle(agg, a, steps, idle)
    ensures AgreeOutside(Exec(agg, a, steps), Exec(agg, b, steps), gids, idle)
    ensures forall g :: g in idle ==> Unchanged(Exec(agg, b, steps), b, g)
  {
    if steps != [] {
      var n := |steps| - 1;
      var a', b' := Exec(agg, a, steps[..n]), Exec(agg, b, steps[..n]);
      assert a'.Keys <= Exec1(agg, a', steps[n]).Keys;
      IdleSteps(agg, a, b, steps[..n], gids, idle);
      IdleStep(agg, a', b', steps[n], gids, idle);
    }
  }

  /** Intact loads are enough for a lawful aggregate. */
  lemma IntactIsAtomic<S(!new), R(!new)>(agg: Agg<S, R>, m: Store<S>, r: Request<S, R>)
    requires Lawful(agg) && Intact(agg, m, r)
    ensures Atomic(agg, m, r)
  {
    var steps, saved, gids := r.steps, ToSave(agg, r), Footprint(r.steps);
    var after := Exec(agg, r.loaded, steps);
    var idle := Written(steps) - Sources(steps) - saved.Keys;
    SourcesAreTouched(steps);
    StepsAreLocal(agg, r.loaded, steps, gids);
    StepsAreLocal(agg, m, steps, gids);
    IdleSteps(agg, r.loaded, m, steps, gids, idle);
    forall g ensures Get(m + saved, g) == Get(Exec(agg, m, steps), g) {
      if g in gids && g !in idle { assert Unchanged(after, Exec(agg, m, steps), g); }
      if g in idle { assert Unchanged(Exec(agg, m, steps), m, g); }
    }
    SameGets(m + saved, Exec(agg, m, steps));
  }

  /** For every lawful aggregate a run is serial at every moment when each request that completes
      finds the groups it merges from and the groups it saves as it loaded them. */
  lemma {:induction false} IntactIsSerial<S(!new), R(!new)>(agg: Agg<S, R>, es: seq<Event<R>>)
    requires Lawful(agg) && AllIntact(agg, es)
    ensures AlwaysSerial(agg, es)
  {
    if es != [] {
      var n := |es| - 1;
      IntactIsSerial(agg, es[..n]);
      SerialOneMore(agg, es);
      var s, e := RunEvents(agg, es[..n]), es[n];
      if Completes(s, e) { IntactIsAtomic(agg, s.store, s.inFlight[e.id]); }
    }
  }

  /** The two results together: an interleaving with intact loads whose completed requests fold a
      logical group into one root, each source once, leaves the sequential aggregate at the root. */
  lemma ParallelAggregateIsSequential<S(!new), R(!new)>(agg: Agg<S, R>, es: seq<Event<R>>,
                                                        groupOf: int -> int, k: int, root: int)
    requires Lawful(agg) && AllIntact(agg, es)
    requires MergesOnce(Completed(agg, es)) && !Spent(Completed(agg, es), root)
    requires FoldsInto(Completed(agg, es), groupOf, k, root)
    ensures Get(RunEvents(agg, es).store, root) == Sequential(agg, RowsOf(Completed(agg, es), groupOf, k))
  {
    IntactIsSerial(agg, es);
    PartitionIndependence(agg, Completed(agg, es), groupOf, k, root);
  }

  // ---------------------------------------------------------------------------
  // COUNT: nothing weaker will do
  // ---------------------------------------------------------------------------

  /** COUNT of the rows that satisfy `counts`. */
  function Count<R>(counts: R -> bool): Agg<nat, R> {
    var add: (nat, R) -> nat, merge: (nat, nat) -> nat := (n, r) => n + 1, (a, b) => a + b;
    Agg(0, add, merge, counts)
  }

  lemma CountIsLawful<R(!new)>(counts: R -> bool)
    ensures Lawful(Count(counts))
  {
  }

  function Size(m: Store<nat>, g: int): nat {
    if g in m then m[g] else 0
  }

  /** No group of `a` counts more than in `b`. */
  ghost predicate Below(a: Store<nat>, b: Store<nat>) {
    forall g :: Size(a, g) <= Size(b, g)
  }

  ghost predicate Positive(m: Store<nat>) {
    forall g :: g in m ==> m[g] > 0
  }

  /** A step adds to the group it writes: one for a row that counts, the source for a merge. */
  lemma CountStep<R>(counts: R -> bool, m: Store<nat>, step: Step<R>, g: int)
    ensures Size(Exec1(Count(counts), m, step), g) == Size(m, g) +
      (match step
       case Row(gid, row) => if g == gid && counts(row) then 1 else 0
       case Merge(src, tgt) => if g == tgt then Size(m, src) else 0)
  {
  }

  /** Counts never fall, order between stores is kept, and so is a strict difference. */
  lemma {:induction false} CountsGrow<R>(counts: R -> bool, a: Store<nat>, b: Store<nat>, steps: seq<Step<R>>)
    requires Below(a, b)
    ensures Below(b, Exec(Count(counts), b, steps))
    ensures Below(Exec(Count(counts), a, steps), Exec(Count(counts), b, steps))
    ensures forall g :: Size(a, g) < Size(b, g) ==>
      Size(Exec(Count(counts), a, steps), g) < Size(Exec(Count(counts), b, steps), g)
  {
    if steps != [] {
      var n := |steps| - 1;
      CountsGrow(counts, a, b, steps[..n]);
      var a', b' := Exec(Count(counts), a, steps[..n]), Exec(Count(counts), b, steps[..n]);
      forall g
        ensures Size(b', g) <= Size(Exec1(Count(counts), b', steps[n]), g)
        ensures Size(a', g) <= Size(b', g) ==>
          Size(Exec1(Count(counts), a', steps[n]), g) <= Size(Exec1(Count(counts), b', steps[n]), g)
        ensures Size(a', g) < Size(b', g) ==>
          Size(Exec1(Count(counts), a', steps[n]), g) < Size(Exec1(Count(counts), b', steps[n]), g)
      {
        CountStep(counts, a', steps[n], g);
        CountStep(counts, b', steps[n], g);
      }
    }
  }

  lemma {:induction false} CountsArePositive<R>(counts: R -> bool, m: Store<nat>, steps: seq<Step<R>>)
    requires Positive(m)
    ensures Positive(Exec(Count(counts), m, steps))
  {
    if steps != [] { CountsArePositive(counts, m, steps[..|steps| - 1]); }
  }

  /** A source that counts more now makes some target count more than from the loads, and more
      than it does without the request. */
  lemma {:induction false} SourceShows<R>(counts: R -> bool, a: Store<nat>, b: Store<nat>, steps: seq<Step<R>>,
                                          h: int) returns (g: int)
    requires Below(a, b) && h in Sources(steps) && Size(a, h) < Size(b, h)
    ensures g in Written(steps)
    ensures Size(Exec(Count(counts), a, steps), g) < Size(Exec(Count(counts), b, steps), g)
    ensures Size(b, g) < Size(Exec(Count(counts), b, steps), g)
  {
    var n := |steps| - 1;
    var a', b' := Exec(Count(counts), a, steps[..n]), Exec(Count(counts), b, steps[..n]);
    CountsGrow(counts, a, b, steps[..n]);
    if h in Sources(steps[..n]) {
      g := SourceShows(counts, a, b, steps[..n], h);
    } else {
      g := steps[n].tgt;
    }
    CountStep(counts, a', steps[n], g);
    CountStep(counts, b', steps[n], g);
  }

  /** A group that changed since the load counts more now. */
  lemma ChangedIsLarger(a: Store<nat>, b: Store<nat>, h: int)
    requires Below(a, b) && Positive(a) && Positive(b) && !Unchanged(a, b, h)
    ensures Size(a, h) < Size(b, h)
  {
    assert Size(a, h) <= Size(b, h);
  }

  /** Loads that are older than the store and not intact make the save differ from the steps. */
  lemma SpoiledIsNotAtomic<R>(counts: R -> bool, m: Store<nat>, r: Request<nat, R>)
    requires Below(r.loaded, m) && Positive(r.loaded) && Positive(m) && !Intact(Count(counts), m, r)
    ensures !Atomic(Count(counts), m, r)
  {
    var agg, saved := Count(counts), ToSave(Count(counts), r);
    var h :| (h in Sources(r.steps) || h in saved) && !Unchanged(r.loaded, m, h);
    ChangedIsLarger(r.loaded, m, h);
    CountsGrow(counts, r.loaded, m, r.steps);
    var g := h;
    if h !in saved { g := SourceShows(counts, r.loaded, m, r.steps, h); }
    assert Size(m + saved, g) != Size(Exec(agg, m, r.steps), g);
  }

  /** In a serial run of COUNT every load is older than the store. */
  ghost predicate LoadsAreOlder<R>(s: System<nat, R>) {
    && Positive(s.store)
    && forall id :: id in s.inFlight ==> Below(s.inFlight[id].loaded, s.store) && Positive(s.inFlight[id].loaded)
  }

  lemma NextKeepsOlder<R>(counts: R -> bool, s: System<nat, R>, e: Event<R>)
    requires LoadsAreOlder(s) && (Completes(s, e) ==> Atomic(Count(counts), s.store, s.inFlight[e.id]))
    ensures LoadsAreOlder(Next(Count(counts), s, e))
  {
    var t := Next(Count(counts), s, e);
    if Completes(s, e) {
      CountsGrow(counts, s.store, s.store, s.inFlight[e.id].steps);
      CountsArePositive(counts, s.store, s.inFlight[e.id].steps);
    }
    forall id | id in t.inFlight ensures Below(t.inFlight[id].loaded, t.store) {
      if id in s.inFlight && t.inFlight[id] == s.inFlight[id] { assert Below(s.inFlight[id].loaded, s.store); }
    }
  }

  lemma {:induction false} SerialLoadsAreOlder<R>(counts: R -> bool, es: seq<Event<R>>)
    requires AlwaysSerial(Count(counts), es)
    ensures LoadsAreOlder(RunEvents(Count(counts), es))
  {
    if es != [] {
      SerialLoadsAreOlder(counts, es[..|es| - 1]);
      SerialOneMore(Count(counts), es);
      NextKeepsOlder(counts, RunEvents(Count(counts), es[..|es| - 1]), es[|es| - 1]);
    }
  }

  /** The condition is exact: a run of COUNT is serial at every moment if and only if each request
      that completes finds the groups it merges from and the groups it saves as it loaded them. */
  lemma {:induction false} CountIsSerialExactly<R(!new)>(counts: R -> bool, es: seq<Event<R>>)
    ensures AlwaysSerial(Count(counts), es) <==> AllIntact(Count(counts), es)
  {
    if es != [] {
      var n := |es| - 1;
      CountIsSerialExactly(counts, es[..n]);
      var s, e := RunEvents(Count(counts), es[..n]), es[n];
      if AlwaysSerial(Count(counts), es[..n]) {
        SerialOneMore(Count(counts), es);
        SerialLoadsAreOlder(counts, es[..n]);
        CountIsLawful(counts);
        if Completes(s, e) {
          if Intact(Count(counts), s.store, s.inFlight[e.id]) {
            IntactIsAtomic(Count(counts), s.store, s.inFlight[e.id]);
          } else {
            SpoiledIsNotAtomic(counts, s.store, s.inFlight[e.id]);
          }
        }
      }
    }
  }

  /** Every request that completes gives a state to each group it writes, as updates with rows that
      count do. */
  ghost predicate AllGiveStates<S, R>(agg: Agg<S, R>, es: seq<Event<R>>) {
    es == [] ||
    var s, e := RunEvents(agg, es[..|es| - 1]), es[|es| - 1];
    AllGiveStates(agg, es[..|es| - 1]) &&
    (Completes(s, e) ==> Written(s.inFlight[e.id].steps) <= ToSave(agg, s.inFlight[e.id]).Keys)
  }

  /** A request loads only groups of its own. */
  predicate Within<S, R>(r: Request<S, R>) {
    r.loaded.Keys <= Footprint(r.steps)
  }

  ghost predicate AllWithin<S, R>(s: System<S, R>) {
    forall id :: id in s.inFlight ==> Within(s.inFlight[id])
  }

  lemma {:induction false} LoadsAreWithin<S, R>(agg: Agg<S, R>, es: seq<Event<R>>)
    ensures AllWithin(RunEvents(agg, es))
  {
    if es != [] {
      LoadsAreWithin(agg, es[..|es| - 1]);
      var s, t := RunEvents(agg, es[..|es| - 1]), RunEvents(agg, es);
      forall id | id in t.inFlight ensures Within(t.inFlight[id]) {
        if id in s.inFlight { assert Within(s.inFlight[id]); }
      }
    }
  }

  lemma IntactIsCurrent<S, R>(agg: Agg<S, R>, m: Store<S>, r: Request<S, R>)
    requires Within(r) && Written(r.steps) <= ToSave(agg, r).Keys && Intact(agg, m, r)
    ensures CurrentAt(m, r)
  {
    SourcesAreTouched(r.steps);
    forall g | g in Footprint(r.steps) ensures Get(r.loaded, g) == Get(m, g) { assert Unchanged(r.loaded, m, g); }
    SamePart(r.loaded, m, Footprint(r.steps));
    assert Part(r.loaded, Footprint(r.steps)) == r.loaded;
  }

  lemma {:induction false} IntactIsFresh<S, R>(agg: Agg<S, R>, es: seq<Event<R>>)
    requires AllGiveStates(agg, es) && AllIntact(agg, es)
    ensures Fresh(agg, es)
  {
    if es != [] {
      var n := |es| - 1;
      IntactIsFresh(agg, es[..n]);
      LoadsAreWithin(agg, es[..n]);
      var s, e := RunEvents(agg, es[..n]), es[n];
      if Completes(s, e) { IntactIsCurrent(agg, s.store, s.inFlight[e.id]); }
    }
  }

  /** For such requests every load matters: serial if and only if fresh. */
  lemma UpdatesAreSerialExactly<R(!new)>(counts: R -> bool, es: seq<Event<R>>)
    requires AllGiveStates(Count(counts), es)
    ensures AlwaysSerial(Count(counts), es) <==> Fresh(Count(counts), es)
  {
    CountIsSerialExactly(counts, es);
    if Fresh(Count(counts), es) { FreshIsIntact(Count(counts), es); }
    if AllIntact(Count(counts), es) { IntactIsFresh(Count(counts), es); }
  }

  // ---------------------------------------------------------------------------
  // Concrete runs
  // ---------------------------------------------------------------------------

  lemma OneRow<R>(counts: R -> bool, m: Store<nat>, g: int, r: R)
    requires counts(r)
    ensures Exec(Count(counts), m, [Row(g, r)]) == m[g := Size(m, g) + 1]
    ensures Footprint([Row(g, r)]) == Written([Row(g, r)]) == {g} && Sources([Row(g, r)]) == {}
  {
    assert [Row(g, r)][..0] == [];
  }

  lemma OneMerge<R>(agg: Agg<nat, R>, src: int, tgt: int)
    ensures var steps: seq<Step<R>> := [Merge(src, tgt)];
      && Exec(agg, map[], steps) == map[] && Sources(steps) == {src}
      && Written(steps) == {tgt} && Footprint(steps) == {src, tgt}
  {
    var steps: seq<Step<R>> := [Merge(src, tgt)];
    assert steps[..0] == [];
  }

  lemma RunOneMore<S, R>(agg: Agg<S, R>, es: seq<Event<R>>, e: Event<R>)
    ensures RunEvents(agg, es + [e]) == Next(agg, RunEvents(agg, es), e)
    ensures var s := RunEvents(agg, es);
      && Completed(agg, es + [e]) == Completed(agg, es) + (if Completes(s, e) then s.inFlight[e.id].steps else [])
      && (Fresh(agg, es + [e]) <==> Fresh(agg, es) && (Completes(s, e) ==> CurrentAt(s.store, s.inFlight[e.id])))
      && (AllIntact(agg, es + [e]) <==>
            AllIntact(agg, es) && (Completes(s, e) ==> Intact(agg, s.store, s.inFlight[e.id])))
      && (Disciplined(agg, es + [e]) <==> Disciplined(agg, es) && Allowed(s, e))
  {
    assert (es + [e])[..|es|] == es;
  }

  /** Two requests have begun on an empty store, and the second has completed. */
  lemma SecondCompletes<S, R>(agg: Agg<S, R>, a: seq<Step<R>>, b: seq<Step<R>>) returns (es: seq<Event<R>>)
    ensures RunEvents(agg, es) == System(ToSave(agg, Request(b, map[])), map[0 := Request(a, map[])])
    ensures Completed(agg, es) == b && Fresh(agg, es) && AllIntact(agg, es)
    ensures Disciplined(agg, es) ==> Written(b) !! Footprint(a)
  {
    var e0, e1, e2 := Begin(0, a), Begin(1, b), End(1);
    var s1: System<S, R> := System(map[], map[0 := Request(a, map[])]);
    var s2: System<S, R> := System(map[], map[0 := Request(a, map[]), 1 := Request(b, map[])]);
    RunOneMore(agg, [], e0);
    assert RunEvents(agg, [] + [e0]) == s1;
    RunOneMore(agg, [] + [e0], e1);
    assert Next(agg, s1, e1) == s2;
    RunOneMore(agg, [] + [e0] + [e1], e2);
    es := [] + [e0] + [e1] + [e2];
    CurrentIsIntact(agg, map[], Request(b, map[]));
    assert Next(agg, s2, e2).inFlight == map[0 := Request(a, map[])];
    assert s2.inFlight[0].steps == a;
  }

  /** Two processes load one group, add a row each and save: one of the rows is lost. */
  lemma OverlapLosesRow<R>(counts: R -> bool, r: R) returns (es: seq<Event<R>>)
    requires counts(r)
    ensures RunEvents(Count(counts), es).store == map[7 := 1]
    ensures Exec(Count(counts), map[], Completed(Count(counts), es)) == map[7 := 2]
  {
    var row := [Row(7, r)];
    OneRow(counts, map[], 7, r);
    OneRow(counts, map[7 := 1], 7, r);
    var before := SecondCompletes(Count(counts), row, row);
    assert ToSave(Count(counts), Request(row, map[])) == map[7 := 1];
    RunOneMore(Count(counts), before, End(0));
    ExecSplit(Count(counts), map[], row, row);
    es := before + [End(0)];
  }

  /** A request that loads a group and never saves does no harm: the run is fresh, though another
      request saved the group meanwhile. */
  lemma AbandonedIsFresh<R>(counts: R -> bool, r: R) returns (es: seq<Event<R>>)
    requires counts(r)
    ensures Fresh(Count(counts), es) && !Disciplined(Count(counts), es)
  {
    OneRow(counts, map[], 7, r);
    es := SecondCompletes(Count(counts), [Row(7, r)], [Row(7, r)]);
  }

  /** A merge of two groups that were absent at its load saves nothing, so its target may get a
      state meanwhile: the loads are not current, yet intact. */
  lemma AbsentMergeIsIntact<R>(counts: R -> bool, r: R) returns (es: seq<Event<R>>)
    requires counts(r)
    ensures AllIntact(Count(counts), es) && !Fresh(Count(counts), es)
    ensures RunEvents(Count(counts), es).store == map[7 := 1]
  {
    var merge: seq<Step<R>>, row := [Merge(8, 7)], [Row(7, r)];
    OneRow(counts, map[], 7, r);
    OneMerge(Count(counts), 8, 7);
    var before := SecondCompletes(Count(counts), merge, row);
    assert ToSave(Count(counts), Request(row, map[])) == map[7 := 1];
    assert ToSave(Count(counts), Request(merge, map[])) == map[];
    var m: Store<nat> := map[7 := 1];
    assert 7 in Part(m, Footprint(merge));
    RunOneMore(Count(counts), before, End(0));
    es := before + [End(0)];
  }

  /** BOOL_OR over rows that are all TRUE: a lawful aggregate whose state a second row does not change. */
  function AnyRow<R>(): Agg<bool, R> {
    Agg(false, (s: bool, r: R) => true, (a: bool, b: bool) => a || b, (r: R) => true)
  }

  /** Intact loads are not needed by every lawful aggregate: the overlap that costs COUNT a row leaves
      this one serial at every moment. */
  lemma OverlapCanBeAbsorbed<R(!new)>(r: R) returns (es: seq<Event<R>>)
    ensures Lawful(AnyRow<R>()) && AlwaysSerial(AnyRow<R>(), es) && !AllIntact(AnyRow<R>(), es)
  {
    var agg, row := AnyRow<R>(), [Row(7, r)];
    assert row[..0] == [];
    assert forall m: Store<bool> :: Exec(agg, m, row) == m[7 := true];
    assert Footprint(row) == Written(row) == {7};
    var before := SecondCompletes(agg, row, row);
    InterleavingIsSerial(agg, before);
    var m: Store<bool>, old_: Request<bool, R> := map[7 := true], Request(row, map[]);
    assert ToSave(agg, old_) == m;
    assert Atomic(agg, m, old_);
    assert !Unchanged(old_.loaded, m, 7);
    RunOneMore(agg, before, End(0));
    es := before + [End(0)];
    assert es[..|es| - 1] == before;
    SerialOneMore(agg, es);
  }
}
