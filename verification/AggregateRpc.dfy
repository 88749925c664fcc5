/** The aggregate handlers as the workers run them: load the states of a request's groups, compute,
    save (vgi/aggregate_protocol.go, vgi/aggregate_storage.go). Each handler is proved to have the
    effect of its elementary steps on the whole store. */
module AggregateRpc {
  import opened Wrappers
  import opened Aggregate
  import opened Collections

  // ---------------------------------------------------------------------------
  // Loading a part of the store and saving back a part of the result
  // ---------------------------------------------------------------------------

  function Part<S>(m: Store<S>, gids: set<int>): Store<S> {
    map g | g in m && g in gids :: m[g]
  }

  /** The groups a step reads or writes. */
  function Touches<R>(step: Step<R>): set<int> {
    match step
    case Row(gid, _) => {gid}
    case Merge(src, tgt) => {src, tgt}
  }

  function Footprint<R>(steps: seq<Step<R>>): set<int> {
    if steps == [] then {} else Footprint(steps[..|steps| - 1]) + Touches(steps[|steps| - 1])
  }

  /** The groups a step may write. */
  function Written<R>(steps: seq<Step<R>>): set<int> {
    if steps == [] then {}
    else Written(steps[..|steps| - 1]) + (var last := steps[|steps| - 1]; {if last.Row? then last.gid else last.tgt})
  }

  /** Steps work the same on the part of the store they touch, and change nothing but what they write. */
  lemma {:induction false} StepsAreLocal<S, R>(agg: Agg<S, R>, m: Store<S>, steps: seq<Step<R>>, gids: set<int>)
    requires Footprint(steps) <= gids
    ensures Part(Exec(agg, m, steps), gids) == Exec(agg, Part(m, gids), steps)
    ensures forall g :: g !in Written(steps) ==> Get(Exec(agg, m, steps), g) == Get(m, g)
    ensures m.Keys <= Exec(agg, m, steps).Keys
    ensures Written(steps) <= Footprint(steps)
  {
    if steps != [] {
      var n := |steps| - 1;
      StepsAreLocal(agg, m, steps[..n], gids);
      LocalStep(agg, Exec(agg, m, steps[..n]), steps[n], gids);
    }
  }

  lemma LocalStep<S, R>(agg: Agg<S, R>, m: Store<S>, step: Step<R>, gids: set<int>)
    requires Touches(step) <= gids
    ensures Part(Exec1(agg, m, step), gids) == Exec1(agg, Part(m, gids), step)
    ensures forall g :: g != (if step.Row? then step.gid else step.tgt) ==> Get(Exec1(agg, m, step), g) == Get(m, g)
  {
    forall g | g in Touches(step) ensures Get(Part(m, gids), g) == Get(m, g) {}
  }

  lemma SameGets<S>(a: Store<S>, b: Store<S>)
    requires forall g :: Get(a, g) == Get(b, g)
    ensures a == b
  {
    forall g ensures g in a <==> g in b { assert Get(a, g) == Get(b, g); }
    assert a.Keys == b.Keys;
    forall g | g in a ensures a[g] == b[g] { assert Get(a, g) == Get(b, g); }
  }

  /** Saving the written groups is enough: what was loaded and not written is unchanged in the store. */
  lemma SavingWrittenIsEnough<S, R>(agg: Agg<S, R>, m: Store<S>, steps: seq<Step<R>>, gids: set<int>, saved: Store<S>)
    requires Footprint(steps) <= gids
    requires var after := Exec(agg, Part(m, gids), steps);
      saved.Keys <= after.Keys && after.Keys * Written(steps) <= saved.Keys && forall g :: g in saved ==>
        saved[g] == after[g]
    ensures m + saved == Exec(agg, m, steps)
  {
    StepsAreLocal(agg, m, steps, gids);
    var after := Exec(agg, m, steps);
    forall g ensures Get(m + saved, g) == Get(after, g) {
      if g in saved { assert g in Part(after, gids); }
    }
    SameGets(m + saved, after);
  }

  // ---------------------------------------------------------------------------
  // The handlers
  // ---------------------------------------------------------------------------

  function RowSteps<R>(gids: seq<int>, rows: seq<R>): (steps: seq<Step<R>>)
    requires |gids| == |rows|
    ensures |steps| == |gids| && forall i :: 0 <= i < |gids| ==> steps[i] == Row(gids[i], rows[i])
  {
    seq(|gids|, i requires 0 <= i < |gids| => Row(gids[i], rows[i]))
  }

  function MergeSteps<R>(srcs: seq<int>, tgts: seq<int>): (steps: seq<Step<R>>)
    requires |srcs| == |tgts|
    ensures |steps| == |srcs| && forall i :: 0 <= i < |srcs| ==> steps[i] == Merge(srcs[i], tgts[i])
  {
    seq(|srcs|, i requires 0 <= i < |srcs| => Merge(srcs[i], tgts[i]))
  }

  lemma {:induction false} FootprintWithin<R>(steps: seq<Step<R>>, gids: set<int>)
    requires forall i :: 0 <= i < |steps| ==> Touches(steps[i]) <= gids
    ensures Footprint(steps) <= gids
  {
    if steps != [] { FootprintWithin(steps[..|steps| - 1], gids); }
  }

  lemma {:induction false} WrittenWithin<R>(steps: seq<Step<R>>, gids: set<int>)
    requires forall i :: 0 <= i < |steps| ==> (if steps[i].Row? then steps[i].gid else steps[i].tgt) in gids
    ensures Written(steps) <= gids
  {
    if steps != [] { WrittenWithin(steps[..|steps| - 1], gids); }
  }

  /** The first occurrences, in order. */
  function Unique(xs: seq<int>): (r: seq<int>)
    ensures forall x :: x in r <==> x in xs
  {
    if xs == [] then []
    else
      var before, x := Unique(xs[..|xs| - 1]), xs[|xs| - 1];
      assert xs == xs[..|xs| - 1] + [x];
      if x in before then before else before + [x]
  }

  /** uniqueInt64: the first occurrences in order, none twice. */
  method UniqueInt64(xs: seq<int>) returns (out: seq<int>)
    ensures out == Unique(xs)
    ensures forall i, j :: 0 <= i < j < |out| ==> out[i] != out[j]
  {
    var seen: set<int> := {};
    out := [];
    for i := 0 to |xs|
      invariant out == Unique(xs[..i])
      invariant forall x :: x in seen <==> x in out
      invariant forall k, j :: 0 <= k < j < |out| ==> out[k] != out[j]
    {
      assert xs[..i + 1][..i] == xs[..i];
      if xs[i] in seen { continue; }
      seen := seen + {xs[i]};
      out := out + [xs[i]];
    }
    assert xs[..|xs|] == xs;
  }

  /** The shared backend, seen through one execution's bucket. */
  class Bucket<S> {
    var states: map<int, S>

    constructor ()
      ensures states == map[]
    {
      states := map[];
    }

    /** loadStates: the stored states among the group IDs asked for. */
    method LoadStates(gids: seq<int>) returns (loaded: map<int, S>)
      ensures loaded == Part(states, set g | g in gids)
    {
      loaded := map[];
      for i := 0 to |gids|
        invariant loaded == Part(states, set g | g in gids[..i])
      {
        assert gids[..i + 1] == gids[..i] + [gids[i]];
        if gids[i] in states { loaded := loaded[gids[i] := states[gids[i]]]; }
      }
      assert gids[..|gids|] == gids;
    }

    /** saveStates: writes the pairs one by one, in any order, leaving the other groups alone. */
    method SaveStates(toSave: map<int, S>)
      modifies this
      ensures states == old(states) + toSave
    {
      var rest: set<int> := toSave.Keys;
      while rest != {}
        invariant rest <= toSave.Keys
        invariant states == old(states) + Part(toSave, toSave.Keys - rest)
        decreases |rest|
      {
        var g := AnyOf(rest);
        states := states[g := toSave[g]];
        rest := rest - {g};
      }
    }
  }

  /** A lawful user `Update` callback: a state is created only for a row that contributes. */
  method UpdateCallback<S, R>(agg: Agg<S, R>, loaded: map<int, S>, gids: seq<int>,
                              rows: seq<R>) returns (states: map<int, S>)
    requires |gids| == |rows|
    ensures states == Exec(agg, loaded, RowSteps(gids, rows))
  {
    states := loaded;
    var steps := RowSteps(gids, rows);
    for i := 0 to |gids|
      invariant states == Exec(agg, loaded, steps[..i])
    {
      assert steps[..i + 1][..i] == steps[..i];
      if agg.counts(rows[i]) { states := states[gids[i] := agg.add(OrUnit(agg, Get(states, gids[i])), rows[i])]; }
    }
    assert steps[..|gids|] == steps;
  }

  /** handleAggregateUpdate: loads the groups of the batch, runs the callback and saves every state it holds. */
  method HandleAggregateUpdate<S, R>(agg: Agg<S, R>, bucket: Bucket<S>, gids: seq<int>, rows: seq<R>)
    requires |gids| == |rows|
    modifies bucket
    ensures bucket.states == Exec(agg, old(bucket.states), RowSteps(gids, rows))
  {
    var uniqueGids := UniqueInt64(gids);
    var loaded := bucket.LoadStates(uniqueGids);
    var states := UpdateCallback(agg, loaded, gids, rows);
    ghost var steps, asked := RowSteps(gids, rows), set g | g in uniqueGids;
    forall i | 0 <= i < |steps| ensures Touches(steps[i]) <= asked { assert gids[i] in gids; }
    FootprintWithin(steps, asked);
    SavingWrittenIsEnough(agg, bucket.states, steps, asked, states);
    bucket.SaveStates(states);
  }

  /** The merge loop of handleAggregateCombine. */
  method CombineLoop<S, R>(agg: Agg<S, R>, loaded: map<int, S>, srcs: seq<int>,
                           tgts: seq<int>) returns (states: map<int, S>)
    requires |srcs| == |tgts|
    ensures states == Exec(agg, loaded, MergeSteps<R>(srcs, tgts))
  {
    states := loaded;
    var steps := MergeSteps<R>(srcs, tgts);
    for i := 0 to |srcs|
      invariant states == Exec(agg, loaded, steps[..i])
    {
      assert steps[..i + 1][..i] == steps[..i];
      var src, tgt := Get(states, srcs[i]), Get(states, tgts[i]);
      if src.None? && tgt.None? { continue; }
      states := states[tgts[i] := agg.merge(OrUnit(agg, src), OrUnit(agg, tgt))];
    }
    assert steps[..|srcs|] == steps;
  }

  /** handleAggregateCombine: merges in batch order and saves the targets only, which loses nothing
      even when a target is a source later in the batch. */
  method HandleAggregateCombine<S, R>(agg: Agg<S, R>, bucket: Bucket<S>, srcs: seq<int>, tgts: seq<int>)
    requires |srcs| == |tgts|
    modifies bucket
    ensures bucket.states == Exec(agg, old(bucket.states), MergeSteps<R>(srcs, tgts))
  {
    if |srcs| == 0 { return; }
    var all := UniqueInt64(srcs + tgts);
    var loaded := bucket.LoadStates(all);
    var states := CombineLoop<S, R>(agg, loaded, srcs, tgts);
    var updated := UniqueInt64(tgts);
    var toSave := map g | g in states && g in updated :: states[g];
    ghost var asked := set g | g in all;
    CombineFootprint<R>(srcs, tgts, asked, set g | g in updated);
    SavingWrittenIsEnough(agg, bucket.states, MergeSteps<R>(srcs, tgts), asked, toSave);
    bucket.SaveStates(toSave);
  }

  lemma CombineFootprint<R>(srcs: seq<int>, tgts: seq<int>, all: set<int>, updated: set<int>)
    requires |srcs| == |tgts|
    requires (forall g :: g in srcs || g in tgts ==> g in all) && (forall g :: g in tgts ==> g in updated)
    ensures Footprint(MergeSteps<R>(srcs, tgts)) <= all
    ensures Written(MergeSteps<R>(srcs, tgts)) <= updated
  {
    var steps := MergeSteps<R>(srcs, tgts);
    forall i | 0 <= i < |steps| ensures Touches(steps[i]) <= all && steps[i].tgt in updated {
      assert srcs[i] in srcs && tgts[i] in tgts;
    }
    FootprintWithin(steps, all);
    WrittenWithin(steps, updated);
  }

  /** handleAggregateFinalize up to the user callback: the state of each group asked for, in order, or nil. */
  method HandleAggregateFinalize<S>(bucket: Bucket<S>, gids: seq<int>) returns (states: seq<Option<S>>)
    ensures |states| == |gids| && forall i :: 0 <= i < |gids| ==> states[i] == Get(bucket.states, gids[i])
  {
    var loaded := bucket.LoadStates(gids);
    states := [];
    for i := 0 to |gids|
      invariant |states| == i && forall k :: 0 <= k < i ==> states[k] == Get(bucket.states, gids[k])
    {
      states := states + [Get(loaded, gids[i])];
    }
  }
}
