/** The evaluation order of the live predicates and its restoration after a replay
    (vgi/filter_v2.go). */
module FilterOrder {
  import opened Wrappers
  import opened Collections
  import opened FilterState

  function Order(preds: seq<Predicate>): (ids: seq<string>)
    ensures |ids| == |preds| && forall i :: 0 <= i < |ids| ==> ids[i] == preds[i].id
  {
    seq(|preds|, i requires 0 <= i < |preds| => preds[i].id)
  }

  /** The live predicates by ID. */
  function ById(preds: seq<Predicate>): map<string, Predicate> {
    if preds == [] then map[]
    else ById(preds[..|preds| - 1])[preds[|preds| - 1].id := preds[|preds| - 1]]
  }

  /** The predicates of a map in the order of the IDs; `None` on an unknown or repeated ID. */
  function Arrange(byId: map<string, Predicate>, order: seq<string>): Option<seq<Predicate>>
    decreases |order|
  {
    if order == [] then Some([])
    else if order[0] !in byId then None
    else
      match Arrange(byId - {order[0]}, order[1..])
      case None => None
      case Some(rest) => Some([byId[order[0]]] + rest)
  }

  /** restorePredicateOrder. */
  function Restore(preds: seq<Predicate>, order: seq<string>): Option<seq<Predicate>> {
    if Order(preds) == order then Some(preds)
    else if |order| != |ById(preds)| then None
    else Arrange(ById(preds), order)
  }

  ghost predicate NoRepeats(order: seq<string>) {
    forall i, j :: 0 <= i < j < |order| ==> order[i] != order[j]
  }

  lemma LastIdIsNew(preds: seq<Predicate>, m: map<string, Predicate>)
    requires DistinctIds(preds) && preds != []
    requires forall id :: id in m ==> m[id] in preds[..|preds| - 1] && m[id].id == id
    ensures preds[|preds| - 1].id !in m
    ensures forall p :: p in preds[..|preds| - 1] ==> p.id != preds[|preds| - 1].id
  {
    var n := |preds| - 1;
    forall p | p in preds[..n] ensures p.id != preds[n].id {
      var k :| 0 <= k < n && preds[k] == p;
    }
  }

  lemma OneMoreKey(m: map<string, Predicate>, id: string, p: Predicate)
    requires id !in m
    ensures |m[id := p]| == |m| + 1
  {
    assert m[id := p].Keys == m.Keys + {id};
    assert |m.Keys| == |m| && |m[id := p].Keys| == |m[id := p]|;
  }

  lemma {:induction false} ByIdExact(preds: seq<Predicate>)
    requires DistinctIds(preds)
    ensures |ById(preds)| == |preds|
    ensures forall p :: p in preds ==> p.id in ById(preds) && ById(preds)[p.id] == p
    ensures forall id :: id in ById(preds) ==> ById(preds)[id] in preds && ById(preds)[id].id == id
  {
    if preds != [] {
      var n := |preds| - 1;
      ByIdExact(preds[..n]);
      assert preds == preds[..n] + [preds[n]];
      LastIdIsNew(preds, ById(preds[..n]));
      OneMoreKey(ById(preds[..n]), preds[n].id, preds[n]);
    }
  }

  lemma {:induction false} ArrangeExact(byId: map<string, Predicate>, order: seq<string>)
    requires forall id :: id in byId ==> byId[id].id == id
    ensures Arrange(byId, order).Some? <==> NoRepeats(order) && forall i :: 0 <= i < |order| ==> order[i] in byId
    ensures Arrange(byId, order).Some? ==>
      && |Arrange(byId, order).value| == |order|
      && forall i :: 0 <= i < |order| ==> order[i] in byId && Arrange(byId, order).value[i] == byId[order[i]]
  {
    if order != [] {
      var rest := order[1..];
      ArrangeExact(byId - {order[0]}, rest);
      if NoRepeats(order) && forall i :: 0 <= i < |order| ==> order[i] in byId {
        forall i | 0 <= i < |rest| ensures rest[i] in byId - {order[0]} { assert rest[i] == order[i + 1]; }
      }
      if Arrange(byId, order).Some? {
        forall i, j | 0 <= i < j < |order| ensures order[i] != order[j] {
          assert order[j] == rest[j - 1];
          if i > 0 { assert order[i] == rest[i - 1]; }
        }
      }
    }
  }

  lemma {:induction false} CountWithoutRepeats(order: seq<string>)
    requires NoRepeats(order)
    ensures |set i | 0 <= i < |order| :: order[i]| == |order|
  {
    if order != [] {
      var n := |order| - 1;
      CountWithoutRepeats(order[..n]);
      assert (set i | 0 <= i < |order| :: order[i]) == (set i | 0 <= i < n :: order[..n][i]) + {order[n]};
    }
  }

  /** As many names as IDs, none repeated and all known: they are the IDs. */
  lemma NamesAll(byId: map<string, Predicate>, order: seq<string>)
    requires NoRepeats(order)
    ensures |order| == |byId| && (forall i :: 0 <= i < |order| ==> order[i] in byId) <==>
      forall id :: id in order <==> id in byId
  {
    var named := set i | 0 <= i < |order| :: order[i];
    CountWithoutRepeats(order);
    assert |byId| == |byId.Keys|;
    assert forall id :: id in order <==> id in named;
    if |order| == |byId| && forall i :: 0 <= i < |order| ==> order[i] in byId {
      SameSize(named, byId.Keys);
    }
    if forall id :: id in order <==> id in byId {
      assert named == byId.Keys;
    }
  }

  lemma ArrangedIsSame(preds: seq<Predicate>, order: seq<string>)
    requires DistinctIds(preds) && Arrange(ById(preds), order).Some? && forall id :: id in order <==> id in ById(preds)
    ensures var r := Arrange(ById(preds), order).value; Order(r) == order && forall p :: p in r <==> p in preds
  {
    ByIdExact(preds);
    ArrangeExact(ById(preds), order);
    var r := Arrange(ById(preds), order).value;
    forall p | p in preds ensures p in r {
      assert p.id in order;
      var i :| 0 <= i < |order| && order[i] == p.id;
      assert r[i] == p;
    }
  }

  /** Restoring an order succeeds exactly when it names the live IDs, each once; it then changes
      only the order. */
  lemma RestoreExact(preds: seq<Predicate>, order: seq<string>)
    requires DistinctIds(preds)
    ensures Restore(preds, order).Some? <==> NoRepeats(order) && forall id :: id in order <==> id in Order(preds)
    ensures Restore(preds, order).Some? ==>
      && Order(Restore(preds, order).value) == order
      && forall p :: p in Restore(preds, order).value <==> p in preds
  {
    if Order(preds) != order {
      ByIdExact(preds);
      LiveNames(preds);
      ArrangeExact(ById(preds), order);
      if NoRepeats(order) { NamesAll(ById(preds), order); }
      if Restore(preds, order).Some? { ArrangedIsSame(preds, order); }
    }
  }

  lemma LiveNames(preds: seq<Predicate>)
    requires DistinctIds(preds)
    ensures forall id :: id in Order(preds) <==> id in ById(preds)
  {
    ByIdExact(preds);
    forall id | id in ById(preds) ensures id in Order(preds) {
      var k :| 0 <= k < |preds| && preds[k] == ById(preds)[id];
      assert Order(preds)[k] == id;
    }
    forall id | id in Order(preds) ensures id in ById(preds) {
      var k :| 0 <= k < |preds| && Order(preds)[k] == id;
      assert preds[k] in preds;
    }
  }
}
