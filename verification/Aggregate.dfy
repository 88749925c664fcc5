/** The aggregate protocol: update, combine and finalize as stateless requests from many worker
    processes into one keyed store (vgi/aggregate_protocol.go, vgi/aggregate_storage.go), and the
    proof that any splitting of the rows and any merge tree computes the sequential aggregate. */
module Aggregate {
  import opened Wrappers
  import opened Collections

  /** A user aggregate: `NewState`, the effect of one row on a state, `Combine`, and whether a
      row contributes at all (a NULL under default null handling does not). */
  datatype Agg<!S, !R> = Agg(unit: S, add: (S, R) -> S, merge: (S, S) -> S, counts: R -> bool)

  predicate UnitLaw<S(==), R>(agg: Agg<S, R>, a: S) {
    agg.merge(agg.unit, a) == a
  }

  predicate Commutes<S(==), R>(agg: Agg<S, R>, a: S, b: S) {
    agg.merge(a, b) == agg.merge(b, a)
  }

  predicate Associates<S(==), R>(agg: Agg<S, R>, a: S, b: S, c: S) {
    agg.merge(agg.merge(a, b), c) == agg.merge(a, agg.merge(b, c))
  }

  predicate AddIsMerge<S(==), R>(agg: Agg<S, R>, a: S, r: R) {
    agg.add(a, r) == agg.merge(a, agg.add(agg.unit, r))
  }

  /** `Combine` is a commutative monoid with `NewState` as unit, and adding a row is merging it in. */
  ghost predicate Lawful<S(!new), R(!new)>(agg: Agg<S, R>) {
    && (forall a :: UnitLaw(agg, a))
    && (forall a, b :: Commutes(agg, a, b))
    && (forall a, b, c :: Associates(agg, a, b, c))
    && (forall a, r :: AddIsMerge(agg, a, r))
  }

  /** The stored states by group ID. */
  type Store<S> = map<int, S>

  function Get<S>(m: Store<S>, gid: int): Option<S> {
    if gid in m then Some(m[gid]) else None
  }

  function OrUnit<S, R>(agg: Agg<S, R>, s: Option<S>): S {
    if s.Some? then s.value else agg.unit
  }

  /** The elementary effects of a run: one row for a group, or one merge of a source into a target. */
  datatype Step<R> = Row(gid: int, row: R) | Merge(src: int, tgt: int)

  function Exec1<S, R>(agg: Agg<S, R>, m: Store<S>, step: Step<R>): Store<S> {
    match step
    case Row(gid, row) => if agg.counts(row) then m[gid := agg.add(OrUnit(agg, Get(m, gid)), row)] else m
    case Merge(src, tgt) =>
      if src !in m && tgt !in m then m
      else m[tgt := agg.merge(OrUnit(agg, Get(m, src)), OrUnit(agg, Get(m, tgt)))]
  }

  function Exec<S, R>(agg: Agg<S, R>, m: Store<S>, steps: seq<Step<R>>): Store<S> {
    if steps == [] then m else Exec1(agg, Exec(agg, m, steps[..|steps| - 1]), steps[|steps| - 1])
  }

  // ---------------------------------------------------------------------------
  // The sequential aggregate
  // ---------------------------------------------------------------------------

  /** The aggregate of rows taken one after another; `None` (SQL NULL) when none contributes. */
  function Sequential<S, R>(agg: Agg<S, R>, rows: seq<R>): Option<S> {
    if rows == [] then None
    else
      var before, r := Sequential(agg, rows[..|rows| - 1]), rows[|rows| - 1];
      if agg.counts(r) then Some(agg.add(OrUnit(agg, before), r)) else before
  }

  function Join<S, R>(agg: Agg<S, R>, a: Option<S>, b: Option<S>): Option<S> {
    if a.None? && b.None? then None else Some(agg.merge(OrUnit(agg, a), OrUnit(agg, b)))
  }

  lemma {:induction false} AbsentIffNothingCounts<S, R>(agg: Agg<S, R>, rows: seq<R>)
    ensures Sequential(agg, rows).None? <==> forall i :: 0 <= i < |rows| ==> !agg.counts(rows[i])
  {
    if rows != [] { AbsentIffNothingCounts(agg, rows[..|rows| - 1]); }
  }

  lemma JoinLaws<S(!new), R(!new)>(agg: Agg<S, R>, a: Option<S>, b: Option<S>, c: Option<S>)
    requires Lawful(agg)
    ensures Join(agg, a, b) == Join(agg, b, a)
    ensures Join(agg, Join(agg, a, b), c) == Join(agg, a, Join(agg, b, c))
    ensures Join(agg, a, None) == a
  {
    var x, y, z := OrUnit(agg, a), OrUnit(agg, b), OrUnit(agg, c);
    assert Commutes(agg, x, y) && Associates(agg, x, y, z);
    assert UnitLaw(agg, x) && UnitLaw(agg, z) && UnitLaw(agg, agg.unit);
    assert Commutes(agg, x, agg.unit);
  }

  function One<S, R>(agg: Agg<S, R>, r: R): Option<S> {
    if agg.counts(r) then Some(agg.add(agg.unit, r)) else None
  }

  lemma OneMoreRow<S(!new), R(!new)>(agg: Agg<S, R>, rows: seq<R>, r: R)
    requires Lawful(agg)
    ensures Sequential(agg, rows + [r]) == Join(agg, Sequential(agg, rows), One(agg, r))
  {
    assert (rows + [r])[..|rows|] == rows;
    if agg.counts(r) {
      var a := OrUnit(agg, Sequential(agg, rows));
      assert AddIsMerge(agg, a, r);
    } else {
      JoinLaws(agg, Sequential(agg, rows), None, None);
    }
  }

  /** Aggregating two runs of rows separately and joining is aggregating them in one go. */
  lemma {:induction false} SequentialSplits<S(!new), R(!new)>(agg: Agg<S, R>, a: seq<R>, b: seq<R>)
    requires Lawful(agg)
    ensures Sequential(agg, a + b) == Join(agg, Sequential(agg, a), Sequential(agg, b))
  {
    if b == [] {
      assert a + b == a;
      JoinLaws(agg, Sequential(agg, a), None, None);
    } else {
      var n := |b| - 1;
      SequentialSplits(agg, a, b[..n]);
      OneMoreRow(agg, a + b[..n], b[n]);
      OneMoreRow(agg, b[..n], b[n]);
      assert a + b[..n] + [b[n]] == a + b && b[..n] + [b[n]] == b;
      JoinLaws(agg, Sequential(agg, a), Sequential(agg, b[..n]), One(agg, b[n]));
    }
  }

  lemma TakeOut<R>(a: seq<R>, b: seq<R>) returns (i: nat)
    requires a != [] && multiset(a) == multiset(b)
    ensures i < |b| && b[i] == a[|a| - 1]
    ensures multiset(a[..|a| - 1]) == multiset(b[..i] + b[i + 1..])
  {
    var n := |a| - 1;
    assert a == a[..n] + [a[n]];
    assert a[n] in multiset(b);
    i :| 0 <= i < |b| && b[i] == a[n];
    assert b == b[..i] + [a[n]] + b[i + 1..];
    Cancel(multiset(a[..n]), multiset(b[..i] + b[i + 1..]), multiset{a[n]});
  }

  /** The aggregate does not depend on the order of the rows. */
  lemma {:induction false} SequentialPermutes<S(!new), R(!new)>(agg: Agg<S, R>, a: seq<R>, b: seq<R>)
    requires Lawful(agg) && multiset(a) == multiset(b)
    ensures Sequential(agg, a) == Sequential(agg, b)
  {
    if a == [] {
      assert |multiset(b)| == 0;
      assert b == [];
    } else {
      var n := |a| - 1;
      var i := TakeOut(a, b);
      SequentialPermutes(agg, a[..n], b[..i] + b[i + 1..]);
      OneMoreRow(agg, a[..n], a[n]);
      MiddleToEnd(agg, b[..i], a[n], b[i + 1..]);
      assert a == a[..n] + [a[n]] && b == b[..i] + [a[n]] + b[i + 1..];
    }
  }

  lemma MiddleToEnd<S(!new), R(!new)>(agg: Agg<S, R>, left: seq<R>, r: R, right: seq<R>)
    requires Lawful(agg)
    ensures Sequential(agg, left + [r] + right) == Join(agg, Sequential(agg, left + right), One(agg, r))
  {
    var l, x, q := Sequential(agg, left), One(agg, r), Sequential(agg, right);
    SequentialSplits(agg, left + [r], right);
    OneMoreRow(agg, left, r);
    SequentialSplits(agg, left, right);
    JoinLaws(agg, l, x, q);
    JoinLaws(agg, x, q, l);
    JoinLaws(agg, l, q, x);
  }

  // ---------------------------------------------------------------------------
  // Which rows a group's state stands for
  // ---------------------------------------------------------------------------

  /** The rows folded into a group's state by a run: its own and those of every merged source. */
  function RowsIn<R>(steps: seq<Step<R>>, g: int): seq<R> {
    if steps == [] then []
    else
      var before, last := steps[..|steps| - 1], steps[|steps| - 1];
      match last
      case Row(gid, row) => if gid == g then RowsIn(before, g) + [row] else RowsIn(before, g)
      case Merge(src, tgt) => if tgt == g then RowsIn(before, src) + RowsIn(before, g) else RowsIn(before, g)
  }

  /** After any run whatever, a group's stored state is the sequential aggregate of the rows folded
      into it, and it is absent exactly when none of them contributed. */
  lemma {:induction false} StoredIsSequential<S(!new), R(!new)>(agg: Agg<S, R>, steps: seq<Step<R>>, g: int)
    requires Lawful(agg)
    ensures Get(Exec(agg, map[], steps), g) == Sequential(agg, RowsIn(steps, g))
  {
    if steps != [] {
      var before, last := steps[..|steps| - 1], steps[|steps| - 1];
      StoredIsSequential(agg, before, g);
      match last
      case Row(gid, row) =>
        if gid == g {
          assert (RowsIn(before, g) + [row])[..|RowsIn(before, g)|] == RowsIn(before, g);
        }
      case Merge(src, tgt) =>
        StoredIsSequential(agg, before, src);
        SequentialSplits(agg, RowsIn(before, src), RowsIn(before, g));
    }
  }

  // ---------------------------------------------------------------------------
  // Runs that merge every group exactly once
  // ---------------------------------------------------------------------------

  /** A merged source is spent: it gets no more rows and takes part in no other merge. */
  ghost predicate MergesOnce<R>(steps: seq<Step<R>>) {
    forall i :: 0 <= i < |steps| ==>
      match steps[i]
      case Row(gid, _) => !Spent(steps[..i], gid)
      case Merge(src, tgt) => src != tgt && !Spent(steps[..i], src) && !Spent(steps[..i], tgt)
  }

  ghost predicate Spent<R>(steps: seq<Step<R>>, g: int) {
    exists i :: 0 <= i < |steps| && steps[i].Merge? && steps[i].src == g
  }

  /** Where the rows of a group end up. */
  function Final<R>(steps: seq<Step<R>>, g: int): int {
    if steps == [] then g
    else
      var h, last := Final(steps[..|steps| - 1], g), steps[|steps| - 1];
      if last.Merge? && h == last.src then last.tgt else h
  }

  /** The rows of `steps` whose group ends up, under the merges of `all`, in `g`. */
  function Reaching<R>(steps: seq<Step<R>>, all: seq<Step<R>>, g: int): seq<R> {
    if steps == [] then []
    else
      var last := steps[|steps| - 1];
      Reaching(steps[..|steps| - 1], all, g) + (if last.Row? && Final(all, last.gid) == g then [last.row] else [])
  }

  lemma MergesOncePrefix<R>(steps: seq<Step<R>>)
    requires steps != [] && MergesOnce(steps)
    ensures MergesOnce(steps[..|steps| - 1])
  {
    var n := |steps| - 1;
    forall i | 0 <= i < n ensures steps[..n][..i] == steps[..i] {}
  }

  lemma SpentOneMore<R>(steps: seq<Step<R>>, g: int)
    requires steps != []
    ensures var n := |steps| - 1; Spent(steps, g) <==> Spent(steps[..n], g) || (steps[n].Merge? && steps[n].src == g)
  {
    var n := |steps| - 1;
    if Spent(steps, g) && !(steps[n].Merge? && steps[n].src == g) {
      var i :| 0 <= i < |steps| && steps[i].Merge? && steps[i].src == g;
      assert steps[..n][i] == steps[i];
    }
    if Spent(steps[..n], g) {
      var i :| 0 <= i < n && steps[..n][i].Merge? && steps[..n][i].src == g;
      assert steps[i] == steps[..n][i];
    }
  }

  /** A group that was never a source keeps its rows. */
  lemma {:induction false} UnspentStays<R>(steps: seq<Step<R>>, g: int)
    requires !Spent(steps, g)
    ensures Final(steps, g) == g
  {
    if steps != [] {
      SpentOneMore(steps, g);
      UnspentStays(steps[..|steps| - 1], g);
    }
  }

  /** No rows end up in a spent group. */
  lemma {:induction false} FinalIsUnspent<R>(steps: seq<Step<R>>, g: int)
    requires MergesOnce(steps)
    ensures !Spent(steps, Final(steps, g))
  {
    if steps != [] {
      var n := |steps| - 1;
      MergesOncePrefix(steps);
      FinalIsUnspent(steps[..n], g);
      SpentOneMore(steps, Final(steps, g));
    }
  }

  /** One more merge sends the rows of its source to its target and moves no others. */
  lemma {:induction false} ReachingAfterMerge<R>(xs: seq<Step<R>>, all: seq<Step<R>>, g: int)
    requires all != [] && all[|all| - 1].Merge? && all[|all| - 1].src != all[|all| - 1].tgt
    ensures var before, src, tgt := all[..|all| - 1], all[|all| - 1].src, all[|all| - 1].tgt;
      && (g == tgt ==>
            multiset(Reaching(xs, all, g)) == multiset(Reaching(xs, before, src)) + multiset(Reaching(xs, before, tgt)))
      && (g != tgt && g != src ==> Reaching(xs, all, g) == Reaching(xs, before, g))
  {
    if xs != [] { ReachingAfterMerge(xs[..|xs| - 1], all, g); }
  }

  lemma {:induction false} ReachingIgnoresRows<R>(xs: seq<Step<R>>, all: seq<Step<R>>, g: int)
    requires all != [] && all[|all| - 1].Row?
    ensures Reaching(xs, all, g) == Reaching(xs, all[..|all| - 1], g)
  {
    if xs != [] { ReachingIgnoresRows(xs[..|xs| - 1], all, g); }
  }

  /** When every source is merged once, the state of an unspent group stands for exactly the rows
      that end up in it, each once. */
  lemma {:induction false} RowsInAreRowsReaching<R>(steps: seq<Step<R>>, g: int)
    requires MergesOnce(steps) && !Spent(steps, g)
    ensures multiset(RowsIn(steps, g)) == multiset(Reaching(steps, steps, g))
  {
    if steps != [] {
      var n := |steps| - 1;
      var before, last := steps[..n], steps[n];
      MergesOncePrefix(steps);
      SpentOneMore(steps, g);
      match last
      case Row(gid, row) =>
        RowsInAreRowsReaching(before, g);
        ReachingIgnoresRows(before, steps, g);
        UnspentStays(before, gid);
      case Merge(src, tgt) =>
        RowsInAreRowsReaching(before, g);
        if g == tgt { RowsInAreRowsReaching(before, src); }
        ReachingAfterMerge(before, steps, g);
    }
  }

  /** The rows of the groups that belong to one logical group, in arrival order. */
  function RowsOf<R>(steps: seq<Step<R>>, groupOf: int -> int, k: int): seq<R> {
    if steps == [] then []
    else
      var last := steps[|steps| - 1];
      RowsOf(steps[..|steps| - 1], groupOf, k) + (if last.Row? && groupOf(last.gid) == k then [last.row] else [])
  }

  /** Every group of the logical group `k` is folded into `root`, and no other group is. */
  ghost predicate FoldsInto<R>(steps: seq<Step<R>>, groupOf: int -> int, k: int, root: int) {
    forall i :: 0 <= i < |steps| && steps[i].Row? ==>
      (groupOf(steps[i].gid) == k <==> Final(steps, steps[i].gid) == root)
  }

  lemma {:induction false} FoldedRowsReach<R>(xs: seq<Step<R>>, all: seq<Step<R>>, groupOf: int -> int,
                                              k: int, root: int)
    requires forall i :: 0 <= i < |xs| && xs[i].Row? ==> (groupOf(xs[i].gid) == k <==> Final(all, xs[i].gid) == root)
    ensures Reaching(xs, all, root) == RowsOf(xs, groupOf, k)
  {
    if xs != [] { FoldedRowsReach(xs[..|xs| - 1], all, groupOf, k, root); }
  }

  /** Partition independence: for a lawful aggregate, any run of updates and merges that folds
      every partial group of a logical group into one root, each source once, leaves at the root
      the sequential aggregate of all the logical group's rows, and nothing exactly when none of
      them contributed. */
  lemma PartitionIndependence<S(!new), R(!new)>(agg: Agg<S, R>, steps: seq<Step<R>>, groupOf: int -> int,
                                                k: int, root: int)
    requires Lawful(agg) && MergesOnce(steps)
    requires !Spent(steps, root) && FoldsInto(steps, groupOf, k, root)
    ensures Get(Exec(agg, map[], steps), root) == Sequential(agg, RowsOf(steps, groupOf, k))
    ensures root !in Exec(agg, map[], steps) <==>
      forall i :: 0 <= i < |RowsOf(steps, groupOf, k)| ==> !agg.counts(RowsOf(steps, groupOf, k)[i])
  {
    StoredIsSequential(agg, steps, root);
    RowsInAreRowsReaching(steps, root);
    FoldedRowsReach(steps, steps, groupOf, k, root);
    SequentialPermutes(agg, RowsIn(steps, root), RowsOf(steps, groupOf, k));
    AbsentIffNothingCounts(agg, RowsOf(steps, groupOf, k));
  }
}
