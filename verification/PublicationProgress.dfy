/** What the calls of a manager deliver (vgi/catalog_publication.go): which manifest a Warm call hands
    to its caller and leaves in the cache, what an import and an eviction do, and that a failed call
    leaves nothing behind. Between two steps of the call any events of other calls may happen. */
module PublicationProgress {
  import opened Wrappers
  import opened Publication
  import opened PublicationSafety

  // ---------------------------------------------------------------------------
  // The steps of one call among those of others
  // ---------------------------------------------------------------------------

  /** The call an event is a step of. */
  function CallOf(e: Event): Option<nat> {
    match e
    case Hit(_, _) => None
    case BeginWarm(c, _, _) => Some(c)
    case BeginImport(c, _, _, _) => Some(c)
    case BeginEvict(c, _, _) => Some(c)
    case Lookup(c) => Some(c)
    case UseRenewed(c, _) => Some(c)
    case CheckFound(c, _) => Some(c)
    case Invalidate(c) => Some(c)
    case InvalidateLost(c) => Some(c)
    case Build(c, _) => Some(c)
    case Commit(c) => Some(c)
    case CheckWinner(c, _) => Some(c)
    case Fail(c) => Some(c)
    case Finish(c, _) => Some(c)
    case RenewStored(_, _) => None
  }

  /** None of the events is a step of call `c`. */
  predicate Foreign(es: seq<Event>, c: nat) {
    forall i :: 0 <= i < |es| ==> CallOf(es[i]) != Some(c)
  }

  /** An event, and then events of others. */
  datatype Turn = Turn(event: Event, others: seq<Event>)

  function After(w: World, es: seq<Event>, limit: nat): World {
    if es == [] then w else Next(After(w, es[..|es| - 1], limit), es[|es| - 1], limit)
  }

  function Take(w: World, t: Turn, limit: nat): World {
    After(Next(w, t.event, limit), t.others, limit)
  }

  lemma ForeignKeepsCall(w: World, e: Event, c: nat, limit: nat)
    requires c in w.calls && CallOf(e) != Some(c)
    ensures var w' := Next(w, e, limit); c in w'.calls && w'.calls[c] == w.calls[c]
  {
  }

  lemma {:induction false} OthersKeepCall(w: World, es: seq<Event>, c: nat, limit: nat)
    requires limit >= 1 && Inv(w, limit) && c in w.calls && Foreign(es, c)
    ensures var w' := After(w, es, limit); c in w'.calls && w'.calls[c] == w.calls[c] && Inv(w', limit)
  {
    if es != [] {
      OthersKeepCall(w, es[..|es| - 1], c, limit);
      ForeignKeepsCall(After(w, es[..|es| - 1], limit), es[|es| - 1], c, limit);
      NextKeepsInv(After(w, es[..|es| - 1], limit), es[|es| - 1], limit);
    }
  }

  /** Call `c` stands at `call`, in a world that keeps the invariant. */
  ghost predicate At(w: World, c: nat, call: Call, limit: nat) {
    Inv(w, limit) && c in w.calls && w.calls[c] == call
  }

  /** One step of the call from `w`, and events of others after it, reach a world in which it stands
      at `call`. */
  lemma Stand(w: World, t: Turn, c: nat, call: Call, limit: nat)
    requires limit >= 1 && Inv(w, limit) && Foreign(t.others, c)
    requires var w' := Next(w, t.event, limit); c in w'.calls && w'.calls[c] == call
    ensures At(Take(w, t, limit), c, call, limit)
  {
    NextKeepsInv(w, t.event, limit);
    OthersKeepCall(Next(w, t.event, limit), t.others, c, limit);
  }

  // ---------------------------------------------------------------------------
  // What is delivered
  // ---------------------------------------------------------------------------

  /** The victim is cached if the cache is full. */
  predicate VictimOk(w: World, m: nat, victim: Key, limit: nat) {
    |ManagerOf(w, m).cached| >= limit ==> victim in ManagerOf(w, m).cached
  }

  /** The cache now has `p` for `k`; what else it holds it held before, and it lost at most one other
      entry, and that only if it was full. */
  ghost predicate Caches(before: map<Key, Manifest>, after: map<Key, Manifest>, k: Key, p: Manifest, limit: nat) {
    && k in after && after[k] == p
    && (forall q :: q in after && q != k ==> q in before && after[q] == before[q])
    && |before.Keys - after.Keys| <= 1
    && (|before| < limit ==> before.Keys <= after.Keys)
  }

  ghost predicate NowCaches(w: World, w': World, m: nat, k: Key, p: Manifest, limit: nat) {
    Caches(ManagerOf(w, m).cached, ManagerOf(w', m).cached, k, p, limit)
  }

  lemma RememberCaches(before: map<Key, Manifest>, p: Manifest, limit: nat, victim: Key)
    ensures Caches(before, Remember(before, p, limit, victim), p.cacheKey, p, limit)
  {
    var lost := before.Keys - Remember(before, p, limit, victim).Keys;
    assert lost <= {victim};
    assert lost == {} || lost == {victim};
  }

  ghost predicate OtherManagersKeep(w: World, w': World, m: nat) {
    forall n :: n != m ==> ManagerOf(w', n) == ManagerOf(w, n)
  }

  /** The call is over and touched neither the repository nor what was validated. */
  ghost predicate Over(w: World, w': World, c: nat, m: nat) {
    && w'.repo == w.repo && w'.checked == w.checked && w'.calls == w.calls - {c} && OtherManagersKeep(w, w', m)
  }

  ghost predicate Handed(w: World, w': World, c: nat, m: nat, k: Key, p: Manifest, limit: nat) {
    && Over(w, w', c, m) && NowCaches(w, w', m, k, p, limit)
    && w'.returned == w.returned + {Entry(m, k, p)}
    && ManagerOf(w', m).pending == ManagerOf(w, m).pending - {k}
  }

  /** A Warm call ended with `p`: the caller has it, and so has the cache, from which the next Warm
      is served. */
  ghost predicate Delivered(w: World, w': World, c: nat, m: nat, k: Key, p: Manifest, limit: nat) {
    && Handed(w, w', c, m, k, p, limit)
    && Next(w'.(returned := {}), Hit(m, k), limit) == w'.(returned := {Entry(m, k, p)})
  }

  /** A Warm call ended with an error: nothing returned, nothing cached, and the key is free again. */
  ghost predicate Failed(w: World, w': World, c: nat, m: nat, k: Key) {
    && Over(w, w', c, m) && w'.returned == w.returned
    && ManagerOf(w', m) == Manager(ManagerOf(w, m).cached, ManagerOf(w, m).pending - {k})
  }

  lemma HitServes(w: World, m: nat, k: Key, p: Manifest, limit: nat)
    requires k in ManagerOf(w, m).cached && ManagerOf(w, m).cached[k] == p
    ensures Next(w.(returned := {}), Hit(m, k), limit) == w.(returned := {Entry(m, k, p)})
  {
    assert ManagerOf(w.(returned := {}), m) == ManagerOf(w, m);
  }

  /** The world after a call of this kind ended with this result. */
  function Ended(w: World, c: nat, call: Call, cached: map<Key, Manifest>, returned: set<Entry>): World {
    var pending := ManagerOf(w, call.mgr).pending;
    w.(calls := w.calls - {c},
       managers := w.managers[call.mgr := Manager(cached, if call.kind == Warm then pending - {call.key} else pending)],
       returned := returned)
  }

  lemma FinishWithResult(w: World, c: nat, call: Call, p: Manifest, victim: Key, limit: nat)
    requires c in w.calls && w.calls[c] == call && call.pc == Done(Some(p)) && VictimOk(w, call.mgr, victim, limit)
    ensures var cached := Remember(ManagerOf(w, call.mgr).cached, p, limit, victim);
      && (call.kind == Warm ==>
            Next(w, Finish(c, victim), limit) ==
            Ended(w, c, call, cached, w.returned + {Entry(call.mgr, call.key, p)}))
      && (call.kind != Warm ==> Next(w, Finish(c, victim), limit) == Ended(w, c, call, cached, w.returned))
  {
    var w' := NextPublish(w, Finish(c, victim), limit);
    assert Next(w, Finish(c, victim), limit) == w';
    if call.kind == Warm {
      assert w'.returned == w.returned + {Entry(call.mgr, call.key, p)};
    } else {
      assert w'.returned == w.returned;
    }
  }

  lemma FinishWithout(w: World, c: nat, call: Call, victim: Key, limit: nat)
    requires c in w.calls && w.calls[c] == call && call.pc == Done(None)
    ensures Next(w, Finish(c, victim), limit) ==
      Ended(w, c, call, ManagerOf(w, call.mgr).cached, w.returned)
  {
  }

  lemma EndedIsOver(w: World, c: nat, call: Call, cached: map<Key, Manifest>, returned: set<Entry>)
    ensures var w' := Ended(w, c, call, cached, returned); var pending := ManagerOf(w, call.mgr).pending;
      && Over(w, w', c, call.mgr) && ManagerOf(w', call.mgr).cached == cached
      && ManagerOf(w', call.mgr).pending == (if call.kind == Warm then pending - {call.key} else pending)
  {
  }

  lemma FinishDelivers(w: World, c: nat, m: nat, k: Key, p: Manifest, victim: Key, limit: nat)
    requires limit >= 1 && At(w, c, Call(Warm, m, k, Done(Some(p))), limit) && VictimOk(w, m, victim, limit)
    ensures Delivered(w, Next(w, Finish(c, victim), limit), c, m, k, p, limit)
  {
    assert PcOk(w, w.calls[c]);
    var call, cached := w.calls[c], Remember(ManagerOf(w, m).cached, p, limit, victim);
    FinishWithResult(w, c, call, p, victim, limit);
    EndedIsOver(w, c, call, cached, w.returned + {Entry(m, k, p)});
    RememberCaches(ManagerOf(w, m).cached, p, limit, victim);
    HitServes(Ended(w, c, call, cached, w.returned + {Entry(m, k, p)}), m, k, p, limit);
  }

  lemma FinishFails(w: World, c: nat, m: nat, k: Key, victim: Key, limit: nat)
    requires At(w, c, Call(Warm, m, k, Done(None)), limit)
    ensures Failed(w, Next(w, Finish(c, victim), limit), c, m, k)
  {
    FinishWithout(w, c, w.calls[c], victim, limit);
    EndedIsOver(w, c, w.calls[c], ManagerOf(w, m).cached, w.returned);
  }

  // ---------------------------------------------------------------------------
  // Warm
  // ---------------------------------------------------------------------------

  /** Nothing of the key is in flight at the manager and the call number is new. */
  predicate MayWarm(w: World, c: nat, m: nat, k: Key) {
    c !in w.calls && k !in ManagerOf(w, m).pending
  }

  /** A Warm call begins: it is in flight, and the key is pending until it ends. */
  lemma WarmBegins(w: World, t: Turn, c: nat, m: nat, k: Key, limit: nat)
    requires limit >= 1 && Inv(w, limit) && MayWarm(w, c, m, k)
    requires t.event == BeginWarm(c, m, k) && Foreign(t.others, c)
    ensures At(Take(w, t, limit), c, Call(Warm, m, k, Start), limit)
    ensures var w' := Next(w, t.event, limit); w'.repo == w.repo && k in ManagerOf(w', m).pending
  {
    Stand(w, t, c, Call(Warm, m, k, Start), limit);
  }

  /** A stored manifest that validates is returned as the repository held it when it was looked up; no
      step of the call changes the repository. */
  lemma WarmReturnsStored(w0: World, begin: Turn, lookup: Turn, check: Turn, c: nat, m: nat, k: Key,
                          victim: Key, limit: nat)
    requires limit >= 1 && Inv(w0, limit) && MayWarm(w0, c, m, k)
    requires begin.event == BeginWarm(c, m, k) && lookup.event == Lookup(c) && check.event == CheckFound(c, true)
    requires Foreign(begin.others, c) && Foreign(lookup.others, c) && Foreign(check.others, c)
    requires k in Take(w0, begin, limit).repo
    requires VictimOk(Take(Take(Take(w0, begin, limit), lookup, limit), check, limit), m, victim, limit)
    ensures var w1 := Take(w0, begin, limit); var w2 := Take(w1, lookup, limit); var w3 := Take(w2, check, limit);
      && Delivered(w3, Next(w3, Finish(c, victim), limit), c, m, k, w1.repo[k], limit)
      && Next(w1, lookup.event, limit).repo == w1.repo && Next(w2, check.event, limit).repo == w2.repo
      && Entry(m, k, w1.repo[k]) in Next(w2, check.event, limit).checked
  {
    WarmBegins(w0, begin, c, m, k, limit);
    var w1 := Take(w0, begin, limit);
    var p := w1.repo[k];
    Stand(w1, lookup, c, Call(Warm, m, k, Found(p)), limit);
    var w2 := Take(w1, lookup, limit);
    assert p.cacheKey == k;
    Stand(w2, check, c, Call(Warm, m, k, Done(Some(p))), limit);
    FinishDelivers(Take(w2, check, limit), c, m, k, p, victim, limit);
  }

  /** The same without other calls: from any reachable world the four steps leave the repository as it
      was and return and cache exactly the stored manifest. */
  lemma WarmDelivers(es: seq<Event>, c: nat, m: nat, k: Key, victim: Key, limit: nat)
    requires limit >= 1 && MayWarm(Run(es, limit), c, m, k) && k in Run(es, limit).repo
    requires VictimOk(Run(es, limit), m, victim, limit)
    ensures var w := Run(es, limit);
      Warmed(w, After(w, [BeginWarm(c, m, k), Lookup(c), CheckFound(c, true), Finish(c, victim)], limit), m, k, limit)
  {
    EveryRunIsSafe(es, limit);
    var w := Run(es, limit);
    var w3 := Next(Next(Next(w, BeginWarm(c, m, k), limit), Lookup(c), limit), CheckFound(c, true), limit);
    WarmIsChecked(w, c, m, k, limit);
    FourSteps(w, BeginWarm(c, m, k), Lookup(c), CheckFound(c, true), Finish(c, victim), limit);
    FinishDelivers(w3, c, m, k, w.repo[k], victim, limit);
    CheckedThenDelivered(w, w3, Next(w3, Finish(c, victim), limit), c, m, k, limit);
  }

  /** The stored manifest was validated, returned and cached, and nothing else is left of the call. */
  ghost predicate Warmed(w: World, w': World, m: nat, k: Key, limit: nat) {
    && k in w.repo && w'.repo == w.repo && w'.calls == w.calls
    && w'.returned == w.returned + {Entry(m, k, w.repo[k])} && w'.checked == w.checked + {Entry(m, k, w.repo[k])}
    && NowCaches(w, w', m, k, w.repo[k], limit) && ManagerOf(w', m).pending == ManagerOf(w, m).pending
    && OtherManagersKeep(w, w', m)
  }

  ghost predicate Checked(w: World, w3: World, c: nat, m: nat, k: Key) {
    && k in w.repo && w3.repo == w.repo && w3.returned == w.returned
    && w3.checked == w.checked + {Entry(m, k, w.repo[k])}
    && c in w3.calls && w3.calls == w.calls[c := w3.calls[c]] && OtherManagersKeep(w, w3, m)
    && ManagerOf(w3, m) == Manager(ManagerOf(w, m).cached, ManagerOf(w, m).pending[k := c])
  }

  lemma CheckedThenDelivered(w: World, w3: World, w4: World, c: nat, m: nat, k: Key, limit: nat)
    requires Checked(w, w3, c, m, k) && MayWarm(w, c, m, k) && Handed(w3, w4, c, m, k, w.repo[k], limit)
    ensures Warmed(w, w4, m, k, limit)
  {
    PutThenRemove(w.calls, c, w3.calls[c]);
    PutThenRemove(ManagerOf(w, m).pending, k, c);
    ManagersKeepOn(w, w3, w4, m);
  }

  lemma PutThenRemove<K, V>(before: map<K, V>, k: K, v: V)
    requires k !in before
    ensures before[k := v] - {k} == before
  {
  }

  lemma ManagersKeepOn(a: World, b: World, c: World, m: nat)
    requires OtherManagersKeep(a, b, m) && OtherManagersKeep(b, c, m)
    ensures OtherManagersKeep(a, c, m)
  {
  }

  lemma BeginChanges(w: World, c: nat, m: nat, k: Key, limit: nat)
    requires MayWarm(w, c, m, k)
    ensures var w1 := Next(w, BeginWarm(c, m, k), limit);
      && w1 == w.(calls := w.calls[c := Call(Warm, m, k, Start)], managers := w1.managers)
      && OtherManagersKeep(w, w1, m)
      && ManagerOf(w1, m) == Manager(ManagerOf(w, m).cached, ManagerOf(w, m).pending[k := c])
  {
  }

  /** Looking up and validating the stored manifest. */
  lemma LookupThenCheck(w: World, c: nat, m: nat, k: Key, limit: nat)
    requires c in w.calls && w.calls[c] == Call(Warm, m, k, Start) && k in w.repo && w.repo[k].cacheKey == k
    ensures Next(Next(w, Lookup(c), limit), CheckFound(c, true), limit) ==
      w.(calls := w.calls[c := Call(Warm, m, k, Done(Some(w.repo[k])))],
         checked := w.checked + {Entry(m, k, w.repo[k])})
  {
    var w2 := Next(w, Lookup(c), limit);
    assert w2 == w.(calls := w.calls[c := Call(Warm, m, k, Found(w.repo[k]))]);
    var done := Call(Warm, m, k, Done(Some(w.repo[k])));
    assert w2.calls[c := done] == w.calls[c := done];
  }

  /** The first three steps: the manifest looked up is validated and nothing else happens. */
  lemma WarmIsChecked(w: World, c: nat, m: nat, k: Key, limit: nat)
    requires limit >= 1 && Inv(w, limit) && MayWarm(w, c, m, k) && k in w.repo
    ensures var w3 := Next(Next(Next(w, BeginWarm(c, m, k), limit), Lookup(c), limit), CheckFound(c, true), limit);
      At(w3, c, Call(Warm, m, k, Done(Some(w.repo[k]))), limit) && Checked(w, w3, c, m, k)
  {
    var w1 := Next(w, BeginWarm(c, m, k), limit);
    NextKeepsInv(w, BeginWarm(c, m, k), limit);
    NextKeepsInv(w1, Lookup(c), limit);
    NextKeepsInv(Next(w1, Lookup(c), limit), CheckFound(c, true), limit);
    BeginChanges(w, c, m, k, limit);
    LookupThenCheck(w1, c, m, k, limit);
    SameManagers(w, w1, Next(Next(w1, Lookup(c), limit), CheckFound(c, true), limit), m);
    var done := Call(Warm, m, k, Done(Some(w.repo[k])));
    assert w1.calls[c := done] == w.calls[c := done];
  }

  lemma SameManagers(a: World, b: World, c: World, m: nat)
    requires OtherManagersKeep(a, b, m) && c.managers == b.managers
    ensures OtherManagersKeep(a, c, m) && ManagerOf(c, m) == ManagerOf(b, m)
  {
  }

  lemma FourSteps(w: World, a: Event, b: Event, c: Event, d: Event, limit: nat)
    ensures After(w, [a, b, c, d], limit) == Next(Next(Next(Next(w, a, limit), b, limit), c, limit), d, limit)
  {
    assert [a, b, c, d][..3] == [a, b, c] && [a, b, c][..2] == [a, b] && [a, b][..1] == [a] && [a][..0] == [];
    assert After(w, [a], limit) == Next(After(w, [], limit), a, limit);
    assert After(w, [a, b], limit) == Next(After(w, [a], limit), b, limit);
    assert After(w, [a, b, c], limit) == Next(After(w, [a, b], limit), c, limit);
  }

  /** A manifest that was renewed on the way is returned in its renewed form if it has the identity of
      the stored one; otherwise the call fails. */
  lemma WarmReturnsRenewed(w: World, renew: Turn, check: Turn, c: nat, m: nat, k: Key, p: Manifest, r: Manifest,
                           victim: Key, limit: nat)
    requires limit >= 1 && At(w, c, Call(Warm, m, k, Found(p)), limit)
    requires renew.event == UseRenewed(c, r) && check.event == CheckFound(c, true)
    requires Foreign(renew.others, c) && Foreign(check.others, c)
    requires VictimOk(Take(Take(w, renew, limit), check, limit), m, victim, limit)
    ensures var w1 := Take(w, renew, limit); var w2 := Take(w1, check, limit);
      && Next(w, renew.event, limit).repo == w.repo
      && (p.cacheKey == r.cacheKey && p.content == r.content ==>
            Delivered(w2, Next(w2, Finish(c, victim), limit), c, m, k, r, limit))
      && (!(p.cacheKey == r.cacheKey && p.content == r.content) ==>
            Failed(w1, Next(w1, Finish(c, victim), limit), c, m, k))
  {
    assert PcOk(w, w.calls[c]);
    var w1 := Take(w, renew, limit);
    if SameIdentity(p, r) {
      Stand(w, renew, c, Call(Warm, m, k, Found(r)), limit);
      Stand(w1, check, c, Call(Warm, m, k, Done(Some(r))), limit);
      FinishDelivers(Take(w1, check, limit), c, m, k, r, victim, limit);
    } else {
      Stand(w, renew, c, Call(Warm, m, k, Done(None)), limit);
      FinishFails(w1, c, m, k, victim, limit);
    }
  }

  /** The call has nothing usable and goes on to build. */
  ghost predicate Builds(w: World, c: nat, m: nat, k: Key, limit: nat) {
    At(w, c, Call(Warm, m, k, Building), limit)
  }

  /** With no stored manifest the call builds one. */
  lemma AbsentIsBuilt(w: World, lookup: Turn, c: nat, m: nat, k: Key, limit: nat)
    requires limit >= 1 && At(w, c, Call(Warm, m, k, Start), limit) && k !in w.repo
    requires lookup.event == Lookup(c) && Foreign(lookup.others, c)
    ensures Builds(Take(w, lookup, limit), c, m, k, limit)
    ensures var w' := Next(w, lookup.event, limit); w'.repo == w.repo && w'.returned == w.returned
  {
    Stand(w, lookup, c, Call(Warm, m, k, Building), limit);
  }

  /** A stored manifest that does not validate is taken out of the repository, unless another ID has
      replaced it meanwhile, and the call builds. */
  lemma InvalidIsRebuilt(w: World, check: Turn, drop: Turn, c: nat, m: nat, k: Key, p: Manifest, limit: nat)
    requires limit >= 1 && At(w, c, Call(Warm, m, k, Found(p)), limit)
    requires check.event == CheckFound(c, false) && drop.event == Invalidate(c)
    requires Foreign(check.others, c) && Foreign(drop.others, c)
    ensures var w1 := Take(w, check, limit); var after := Next(w1, drop.event, limit);
      && Next(w, check.event, limit).repo == w.repo && Next(w, check.event, limit).checked == w.checked
      && after.repo == (if k in w1.repo && w1.repo[k].id == p.id then w1.repo - {k} else w1.repo)
      && after.returned == w1.returned && after.managers == w1.managers
      && Builds(Take(w1, drop, limit), c, m, k, limit)
  {
    Stand(w, check, c, Call(Warm, m, k, Stale(p)), limit);
    Stand(Take(w, check, limit), drop, c, Call(Warm, m, k, Building), limit);
  }

  /** The same when the store refuses to remove it: the repository stays as it is. */
  lemma RefusedIsRebuilt(w: World, drop: Turn, c: nat, m: nat, k: Key, p: Manifest, limit: nat)
    requires limit >= 1 && At(w, c, Call(Warm, m, k, Stale(p)), limit)
    requires drop.event == InvalidateLost(c) && Foreign(drop.others, c)
    ensures var after := Next(w, drop.event, limit);
      && after.repo == w.repo && after.returned == w.returned && after.managers == w.managers
      && Builds(Take(w, drop, limit), c, m, k, limit)
  {
    Stand(w, drop, c, Call(Warm, m, k, Building), limit);
  }

  /** The manifest the key has after a commit of `p`. */
  function WinnerOf(repo: Repo, k: Key, p: Manifest): Manifest {
    if k in repo then repo[k] else p
  }

  /** The winner, if it has the ID of the manifest committed or validates. */
  function ResultOf(repo: Repo, k: Key, p: Manifest, ok: bool): Option<Manifest> {
    if WinnerOf(repo, k, p).id == p.id || ok then Some(WinnerOf(repo, k, p)) else None
  }

  lemma CommitStands(w: World, commit: Turn, c: nat, kind: Kind, m: nat, k: Key, p: Manifest, limit: nat)
    requires limit >= 1 && At(w, c, Call(kind, m, k, Ready(p)), limit) && p.cacheKey == k
    requires commit.event == Commit(c) && Foreign(commit.others, c)
    ensures var winner := WinnerOf(w.repo, k, p);
      && winner.cacheKey == k && Next(w, commit.event, limit).repo == w.repo[k := winner]
      && At(Take(w, commit, limit), c, Call(kind, m, k, Committed(p, winner)), limit)
  {
    var winner := WinnerOf(w.repo, k, p);
    if k in w.repo { assert w.repo[k := winner] == w.repo; }
    Stand(w, commit, c, Call(kind, m, k, Committed(p, winner)), limit);
  }

  lemma CommitThenCheck(w: World, commit: Turn, check: Turn, c: nat, kind: Kind, m: nat, k: Key, p: Manifest, ok: bool,
                        limit: nat)
    requires limit >= 1 && At(w, c, Call(kind, m, k, Ready(p)), limit) && p.cacheKey == k
    requires commit.event == Commit(c) && check.event == CheckWinner(c, ok)
    requires Foreign(commit.others, c) && Foreign(check.others, c)
    ensures var w2 := Take(w, commit, limit);
      && Next(w, commit.event, limit).repo == w.repo[k := WinnerOf(w.repo, k, p)]
      && Next(w2, check.event, limit).repo == w2.repo
      && At(Take(w2, check, limit), c, Call(kind, m, k, Done(ResultOf(w.repo, k, p, ok))), limit)
  {
    CommitStands(w, commit, c, kind, m, k, p, limit);
    Stand(Take(w, commit, limit), check, c, Call(kind, m, k, Done(ResultOf(w.repo, k, p, ok))), limit);
  }

  /** A built manifest is stored if the key is free when it is committed, and returned; otherwise the
      winner is returned if it has the ID of the built one or validates, and the call fails if not. */
  lemma BuiltOrWinnerIsReturned(w: World, build: Turn, commit: Turn, check: Turn, c: nat, m: nat, k: Key,
                                p: Manifest, ok: bool, victim: Key, limit: nat)
    requires limit >= 1 && Builds(w, c, m, k, limit) && p.cacheKey == k
    requires build.event == Build(c, p) && commit.event == Commit(c) && check.event == CheckWinner(c, ok)
    requires Foreign(build.others, c) && Foreign(commit.others, c) && Foreign(check.others, c)
    requires VictimOk(Take(Take(Take(w, build, limit), commit, limit), check, limit), m, victim, limit)
    ensures var w1 := Take(w, build, limit); var w2 := Take(w1, commit, limit); var w3 := Take(w2, check, limit);
      var winner := WinnerOf(w1.repo, k, p);
      && Next(w, build.event, limit).repo == w.repo && Entry(m, k, p) in Next(w, build.event, limit).checked
      && Next(w1, commit.event, limit).repo == w1.repo[k := winner]
      && Next(w2, check.event, limit).repo == w2.repo
      && (winner.id == p.id || ok ==> Delivered(w3, Next(w3, Finish(c, victim), limit), c, m, k, winner, limit))
      && (winner.id != p.id && !ok ==> Failed(w3, Next(w3, Finish(c, victim), limit), c, m, k))
  {
    Stand(w, build, c, Call(Warm, m, k, Ready(p)), limit);
    var w1 := Take(w, build, limit);
    CommitThenCheck(w1, commit, check, c, Warm, m, k, p, ok, limit);
    var w3 := Take(Take(w1, commit, limit), check, limit);
    if ResultOf(w1.repo, k, p, ok).Some? {
      FinishDelivers(w3, c, m, k, WinnerOf(w1.repo, k, p), victim, limit);
    } else {
      FinishFails(w3, c, m, k, victim, limit);
    }
  }

  /** An error at any point before the result is there ends the call with nothing. */
  lemma ErrorsFail(w: World, fail: Turn, c: nat, m: nat, k: Key, pc: Pc, victim: Key, limit: nat)
    requires limit >= 1 && At(w, c, Call(Warm, m, k, pc), limit) && !pc.Done?
    requires fail.event == Fail(c) && Foreign(fail.others, c)
    ensures var w1 := Take(w, fail, limit);
      Next(w, fail.event, limit).repo == w.repo && Failed(w1, Next(w1, Finish(c, victim), limit), c, m, k)
  {
    Stand(w, fail, c, Call(Warm, m, k, Done(None)), limit);
    FinishFails(Take(w, fail, limit), c, m, k, victim, limit);
  }

  // ---------------------------------------------------------------------------
  // Import and Evict
  // ---------------------------------------------------------------------------

  /** An imported manifest that was validated is stored if its key is free, and the winner is cached if
      it is that manifest or validates; nothing is returned to a caller of Warm. */
  lemma ImportCachesWinner(w: World, begin: Turn, commit: Turn, check: Turn, c: nat, m: nat, k: Key, p: Manifest,
                           ok: bool, victim: Key, limit: nat)
    requires limit >= 1 && Inv(w, limit) && c !in w.calls && p.cacheKey == k
    requires begin.event == BeginImport(c, m, k, p) && commit.event == Commit(c) && check.event == CheckWinner(c, ok)
    requires Foreign(begin.others, c) && Foreign(commit.others, c) && Foreign(check.others, c)
    requires VictimOk(Take(Take(Take(w, begin, limit), commit, limit), check, limit), m, victim, limit)
    ensures var w1 := Take(w, begin, limit); var w2 := Take(w1, commit, limit); var w3 := Take(w2, check, limit);
      var winner := WinnerOf(w1.repo, k, p);
      var w4 := Next(w3, Finish(c, victim), limit);
      && Next(w1, commit.event, limit).repo == w1.repo[k := winner]
      && Over(w3, w4, c, m) && w4.returned == w3.returned && ManagerOf(w4, m).pending == ManagerOf(w3, m).pending
      && (winner.id == p.id || ok ==> NowCaches(w3, w4, m, k, winner, limit))
      && (winner.id != p.id && !ok ==> ManagerOf(w4, m) == ManagerOf(w3, m))
  {
    Stand(w, begin, c, Call(Import, m, k, Ready(p)), limit);
    var w1 := Take(w, begin, limit);
    CommitThenCheck(w1, commit, check, c, Import, m, k, p, ok, limit);
    ImportFinishes(Take(Take(w1, commit, limit), check, limit), c, m, k, ResultOf(w1.repo, k, p, ok), victim, limit);
  }

  lemma ImportFinishes(w: World, c: nat, m: nat, k: Key, result: Option<Manifest>, victim: Key, limit: nat)
    requires limit >= 1 && At(w, c, Call(Import, m, k, Done(result)), limit) && VictimOk(w, m, victim, limit)
    ensures var w' := Next(w, Finish(c, victim), limit);
      && Over(w, w', c, m) && w'.returned == w.returned && ManagerOf(w', m).pending == ManagerOf(w, m).pending
      && (result.Some? ==> NowCaches(w, w', m, k, result.value, limit))
      && (result.None? ==> ManagerOf(w', m) == ManagerOf(w, m))
  {
    assert PcOk(w, w.calls[c]);
    var call := w.calls[c];
    if result.Some? {
      var cached := Remember(ManagerOf(w, m).cached, result.value, limit, victim);
      FinishWithResult(w, c, call, result.value, victim, limit);
      EndedIsOver(w, c, call, cached, w.returned);
      RememberCaches(ManagerOf(w, m).cached, result.value, limit, victim);
    } else {
      FinishWithout(w, c, call, victim, limit);
      EndedIsOver(w, c, call, ManagerOf(w, m).cached, w.returned);
    }
  }

  /** An eviction drops the cache entry at once, and the manifest it looks up from the repository,
      unless another ID has replaced it meanwhile. */
  lemma EvictRemoves(w: World, begin: Turn, lookup: Turn, drop: Turn, c: nat, m: nat, k: Key, victim: Key, limit: nat)
    requires limit >= 1 && Inv(w, limit) && c !in w.calls
    requires begin.event == BeginEvict(c, m, k) && lookup.event == Lookup(c) && drop.event == Invalidate(c)
    requires Foreign(begin.others, c) && Foreign(lookup.others, c) && Foreign(drop.others, c)
    requires k in Take(w, begin, limit).repo
    ensures var w0 := Next(w, begin.event, limit); var w1 := Take(w, begin, limit);
      var w2 := Take(w1, lookup, limit); var w3 := Take(w2, drop, limit); var w4 := Next(w3, Finish(c, victim), limit);
      && ManagerOf(w0, m) == Manager(ManagerOf(w, m).cached - {k}, ManagerOf(w, m).pending) && w0.repo == w.repo
      && Next(w1, lookup.event, limit).repo == w1.repo
      && Next(w2, drop.event, limit).repo ==
           (if k in w2.repo && w2.repo[k].id == w1.repo[k].id then w2.repo - {k} else w2.repo)
      && Over(w3, w4, c, m) && w4.returned == w3.returned && ManagerOf(w4, m) == ManagerOf(w3, m)
  {
    Stand(w, begin, c, Call(Evict, m, k, Start), limit);
    var w1 := Take(w, begin, limit);
    Stand(w1, lookup, c, Call(Evict, m, k, Stale(w1.repo[k])), limit);
    var w2 := Take(w1, lookup, limit);
    Stand(w2, drop, c, Call(Evict, m, k, Done(None)), limit);
    var w3 := Take(w2, drop, limit);
    FinishWithout(w3, c, w3.calls[c], victim, limit);
    EndedIsOver(w3, c, w3.calls[c], ManagerOf(w3, m).cached, w3.returned);
  }
}
