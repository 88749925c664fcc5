/** Evaluating the live predicates of a scan against a batch (vgi/filter_v2.go,
    vgi/filter_pushdown.go): Kleene conjunction over a running mask, where an advisory predicate
    that cannot be evaluated is skipped and a required one fails the batch. */
module FilterEvaluate {
  import opened Wrappers
  import opened SqlLogic
  import opened FilterExpr
  import opened FilterState

  /** The conjunction of two masks, element by element. */
  function AndMask(a: seq<Truth>, b: seq<Truth>): (r: seq<Truth>)
    requires |a| == |b|
    ensures |r| == |a| && forall i :: 0 <= i < |r| ==> r[i] == And3(a[i], b[i])
  {
    seq(|a|, i requires 0 <= i < |a| => And3(a[i], b[i]))
  }

  /** What the engine returns for an expression: a mask of the batch's length, or an error. */
  type Evaluator = V2Expr -> Option<seq<Truth>>

  ghost predicate Sized(evaluate: Evaluator, rows: nat) {
    forall e :: evaluate(e).Some? ==> |evaluate(e).value| == rows
  }

  predicate IsRuntimeFilter(e: V2Expr) {
    e.Opaque? && e.node == "runtime_filter"
  }

  /** Does this predicate take part in the mask? */
  predicate Counts(p: Predicate, evaluate: Evaluator) {
    !IsRuntimeFilter(p.expr) && evaluate(p.expr).Some?
  }

  /** A required predicate that cannot be evaluated. */
  predicate Blocks(p: Predicate, evaluate: Evaluator) {
    !IsRuntimeFilter(p.expr) && evaluate(p.expr).None? && p.mode == Required
  }

  /** evaluateV2: an error exactly when a required predicate cannot be evaluated; otherwise a row
      passes exactly when every predicate that was evaluated is TRUE on it, and is FALSE exactly
      when one of them is. */
  method EvaluateV2(preds: seq<Predicate>, rows: nat, evaluate: Evaluator) returns (mask: Option<seq<Truth>>)
    requires Sized(evaluate, rows)
    ensures mask.None? <==> exists k :: 0 <= k < |preds| && Blocks(preds[k], evaluate)
    ensures mask.Some? ==> |mask.value| == rows
    ensures mask.Some? ==> forall i :: 0 <= i < rows ==>
      (mask.value[i] == Yes <==>
        forall k :: 0 <= k < |preds| && Counts(preds[k], evaluate) ==> evaluate(preds[k].expr).value[i] == Yes)
    ensures mask.Some? ==> forall i :: 0 <= i < rows ==>
      (mask.value[i] == No <==>
        exists k :: 0 <= k < |preds| && Counts(preds[k], evaluate) && evaluate(preds[k].expr).value[i] == No)
  {
    var result := seq(rows, i => Yes);
    for n := 0 to |preds|
      invariant |result| == rows
      invariant forall k :: 0 <= k < n ==> !Blocks(preds[k], evaluate)
      invariant forall i :: 0 <= i < rows ==>
        (result[i] == Yes <==>
          forall k :: 0 <= k < n && Counts(preds[k], evaluate) ==> evaluate(preds[k].expr).value[i] == Yes)
      invariant forall i :: 0 <= i < rows ==>
        (result[i] == No <==>
          exists k :: 0 <= k < n && Counts(preds[k], evaluate) && evaluate(preds[k].expr).value[i] == No)
    {
      var p := preds[n];
      if IsRuntimeFilter(p.expr) { continue; }
      var current := evaluate(p.expr);
      if current.Some? {
        result := AndMask(result, current.value);
      } else if p.mode == Required {
        return None;
      }
    }
    return Some(result);
  }

  /** AndFilter and OrFilter over a batch: the children's masks folded into a running one. Row by
      row the result is the filter's truth value. */
  method EvaluateFilter(f: Filter, rows: seq<Row>, engine: Engine) returns (mask: seq<Truth>)
    ensures |mask| == |rows|
    ensures forall i :: 0 <= i < |rows| ==> mask[i] == FilterTruth(f, rows[i], engine)
    decreases f
  {
    if !f.AndFilter? && !f.OrFilter? {
      mask := seq(|rows|, i requires 0 <= i < |rows| => FilterTruth(f, rows[i], engine));
      return;
    }
    var conj := f.AndFilter?;
    if f.children == [] {
      mask := seq(|rows|, i => if conj then Yes else No);
      return;
    }
    mask := EvaluateFilter(f.children[0], rows, engine);
    for n := 1 to |f.children|
      invariant |mask| == |rows|
      invariant forall i :: 0 <= i < |rows| ==> mask[i] == FoldTruth(f.children[..n], conj, rows[i], engine)
    {
      var child := EvaluateFilter(f.children[n], rows, engine);
      mask := seq(|rows|, i requires 0 <= i < |rows| => if conj then And3(mask[i], child[i])
        else Or3(mask[i], child[i]));
      assert f.children[..n + 1][..n] == f.children[..n];
    }
    assert f.children[..|f.children|] == f.children;
    forall i | 0 <= i < |rows| ensures mask[i] == FilterTruth(f, rows[i], engine) {
      FoldIsTruth(f.children, conj, rows[i], engine);
    }
  }

  /** The running value of the loop, from the first child on. */
  function FoldTruth(fs: seq<Filter>, conj: bool, row: Row, engine: Engine): Truth {
    if fs == [] then (if conj then Yes else No)
    else
      var before, last := FoldTruth(fs[..|fs| - 1], conj, row, engine), FilterTruth(fs[|fs| - 1], row, engine);
      if conj then And3(before, last) else Or3(before, last)
  }

  lemma {:induction false} FoldIsTruth(fs: seq<Filter>, conj: bool, row: Row, engine: Engine)
    ensures FoldTruth(fs, conj, row, engine) == if conj then AllTruth(fs, row, engine) else AnyTruth(fs, row, engine)
  {
    if fs != [] {
      var n := |fs| - 1;
      FoldIsTruth(fs[..n], conj, row, engine);
      TruthOneMore(fs[..n], fs[n], row, engine);
      assert fs[..n] + [fs[n]] == fs;
    }
  }
}
