/** Agreement of racing managers on one manifest per key, and what "validated" means exactly
    (vgi/catalog_publication.go). */
module PublicationAgreement {
  import opened Wrappers
  import opened Publication
  import opened PublicationSafety

  // ---------------------------------------------------------------------------
  // Agreement
  // ---------------------------------------------------------------------------

  /** The event takes a manifest out of the repository, or replaces or substitutes one by renewal. */
  predicate Disturbs(w: World, e: Event) {
    match e
    case Invalidate(c) =>
      c in w.calls && w.calls[c].pc.Stale? && w.calls[c].key in w.repo &&
        w.repo[w.calls[c].key].id == w.calls[c].pc.existing.id
    case UseRenewed(_, _) => true
    case RenewStored(_, _) => true
    case _ => false
  }

  ghost predicate Undisturbed(es: seq<Event>, limit: nat) {
    forall i :: 0 <= i < |es| ==> !Disturbs(Run(es[..i], limit), es[i])
  }

  predicate Stored(w: World, k: Key, p: Manifest) {
    k in w.repo && w.repo[k] == p
  }

  ghost predicate PcStored(w: World, c: Call) {
    match c.pc
    case Found(e) => Stored(w, c.key, e)
    case Committed(_, win) => Stored(w, c.key, win)
    case Done(r) => r.Some? ==> Stored(w, c.key, r.value)
    case _ => true
  }

  ghost predicate CallsStored(w: World) {
    forall c :: c in w.calls ==> PcStored(w, w.calls[c])
  }

  ghost predicate CachesStored(w: World) {
    forall m, k :: k in ManagerOf(w, m).cached ==> Stored(w, k, ManagerOf(w, m).cached[k])
  }

  ghost predicate ReturnedStored(w: World) {
    forall e :: e in w.returned ==> Stored(w, e.key, e.manifest)
  }

  /** Every manifest that is cached, returned or about to be is the one in the repository. */
  ghost predicate AllStored(w: World) {
    CallsStored(w) && CachesStored(w) && ReturnedStored(w)
  }

  ghost predicate RepoGrows(w: World, w': World) {
    forall k :: k in w.repo ==> k in w'.repo && w'.repo[k] == w.repo[k]
  }

  lemma MoveKeepsStored(w: World, w': World, c: nat)
    requires AllStored(w) && RepoGrows(w, w') && c in w.calls && c in w'.calls
    requires w' == WithPc(w, c, w'.calls[c].pc).(checked := w'.checked, repo := w'.repo)
    requires PcStored(w', w'.calls[c])
    ensures AllStored(w')
  {
    forall k | k in w'.calls ensures PcStored(w', w'.calls[k]) {
      if k != c { assert PcStored(w, w.calls[k]); }
    }
    forall m, k | k in ManagerOf(w', m).cached ensures Stored(w', k, ManagerOf(w', m).cached[k]) {
      assert Stored(w, k, ManagerOf(w, m).cached[k]);
    }
  }

  lemma RecoverKeepsStored(w: World, e: Event)
    requires AllStored(w) && !Disturbs(w, e) && (e.Lookup? || e.CheckFound? || e.Invalidate? || e.InvalidateLost?)
    ensures AllStored(NextRecover(w, e))
  {
    var w' := NextRecover(w, e);
    if w' != w {
      assert PcStored(w, w.calls[e.call]);
      MoveKeepsStored(w, w', e.call);
    }
  }

  lemma CommitKeepsStored(w: World, c: nat, limit: nat)
    requires CallsOk(w) && AllStored(w)
    ensures AllStored(NextPublish(w, Commit(c), limit))
  {
    var w' := NextPublish(w, Commit(c), limit);
    if w' != w {
      assert PcOk(w, w.calls[c]);
      MoveKeepsStored(w, w', c);
    }
  }

  lemma OtherPublishKeepsStored(w: World, e: Event, limit: nat)
    requires AllStored(w) && (e.Build? || e.CheckWinner? || e.Fail?)
    ensures AllStored(NextPublish(w, e, limit))
  {
    var w' := NextPublish(w, e, limit);
    if w' != w {
      assert PcStored(w, w.calls[e.call]);
      MoveKeepsStored(w, w', e.call);
    }
  }

  lemma FinishKeepsCalls(w: World, c: nat, victim: Key, limit: nat)
    requires AllStored(w)
    ensures var w' := NextPublish(w, Finish(c, victim), limit); CallsStored(w') && ReturnedStored(w')
  {
    var w' := NextPublish(w, Finish(c, victim), limit);
    if w' != w {
      assert PcStored(w, w.calls[c]);
      forall k | k in w'.calls ensures PcStored(w', w'.calls[k]) { assert PcStored(w, w.calls[k]); }
      forall e | e in w'.returned ensures Stored(w', e.key, e.manifest) {}
    }
  }

  ghost predicate KeptInCache(w: World, w': World, m: nat, k: Key)
    requires k in ManagerOf(w', m).cached
  {
    k in ManagerOf(w, m).cached && ManagerOf(w', m).cached[k] == ManagerOf(w, m).cached[k]
  }

  ghost predicate OwnResult(w': World, call: Call, m: nat, k: Key)
    requires k in ManagerOf(w', m).cached
  {
    m == call.mgr && call.pc.Done? && call.pc.result == Some(ManagerOf(w', m).cached[k]) &&
      call.pc.result.value.cacheKey == k
  }

  /** After a call ends, a cached manifest is one that was cached before or the call's own. */
  lemma CachedByFinish(w: World, c: nat, victim: Key, limit: nat, m: nat, k: Key)
    requires var w' := NextPublish(w, Finish(c, victim), limit); w' != w && k in ManagerOf(w', m).cached
    ensures var w' := NextPublish(w, Finish(c, victim), limit);
      || KeptInCache(w, w', m, k)
      || (c in w.calls && OwnResult(w', w.calls[c], m, k))
  {
  }

  lemma FinishKeepsCachesStored(w: World, c: nat, victim: Key, limit: nat)
    requires CallsOk(w) && AllStored(w)
    ensures CachesStored(NextPublish(w, Finish(c, victim), limit))
  {
    var w' := NextPublish(w, Finish(c, victim), limit);
    if w' != w {
      var call := w.calls[c];
      assert PcStored(w, call) && PcOk(w, call);
      forall m, k | k in ManagerOf(w', m).cached ensures Stored(w', k, ManagerOf(w', m).cached[k]) {
        CachedByFinish(w, c, victim, limit, m, k);
        if KeptInCache(w, w', m, k) { assert Stored(w, k, ManagerOf(w, m).cached[k]); }
      }
    }
  }

  lemma BeginKeepsStored(w: World, e: Event)
    requires AllStored(w) && (e.Hit? || e.BeginWarm? || e.BeginImport? || e.BeginEvict?)
    ensures AllStored(NextBegin(w, e))
  {
    var w' := NextBegin(w, e);
    forall k | k in w'.calls ensures PcStored(w', w'.calls[k]) { if k in w.calls { assert PcStored(w, w.calls[k]); } }
    forall m, k | k in ManagerOf(w', m).cached ensures Stored(w', k, ManagerOf(w', m).cached[k]) {
      assert k in ManagerOf(w, m).cached;
    }
  }

  lemma NextKeepsStored(w: World, e: Event, limit: nat)
    requires CallsOk(w) && AllStored(w) && !Disturbs(w, e)
    ensures AllStored(Next(w, e, limit))
  {
    match e
    case Hit(_, _) => BeginKeepsStored(w, e);
    case BeginWarm(_, _, _) => BeginKeepsStored(w, e);
    case BeginImport(_, _, _, _) => BeginKeepsStored(w, e);
    case BeginEvict(_, _, _) => BeginKeepsStored(w, e);
    case Lookup(_) => RecoverKeepsStored(w, e);
    case CheckFound(_, _) => RecoverKeepsStored(w, e);
    case Invalidate(_) => RecoverKeepsStored(w, e);
    case InvalidateLost(_) => RecoverKeepsStored(w, e);
    case Commit(c) => CommitKeepsStored(w, c, limit);
    case Finish(c, victim) => FinishKeepsCalls(w, c, victim, limit); FinishKeepsCachesStored(w, c, victim, limit);
    case _ => OtherPublishKeepsStored(w, e, limit);
  }

  lemma UndisturbedPrefix(es: seq<Event>, limit: nat)
    requires es != [] && Undisturbed(es, limit)
    ensures Undisturbed(es[..|es| - 1], limit) && !Disturbs(Run(es[..|es| - 1], limit), es[|es| - 1])
  {
    var n := |es| - 1;
    forall i | 0 <= i < n ensures es[..n][..i] == es[..i] {}
  }

  lemma {:induction false} UndisturbedIsStored(es: seq<Event>, limit: nat)
    requires limit >= 1 && Undisturbed(es, limit)
    ensures AllStored(Run(es, limit))
  {
    if es != [] {
      UndisturbedPrefix(es, limit);
      UndisturbedIsStored(es[..|es| - 1], limit);
      EveryRunIsSafe(es[..|es| - 1], limit);
      NextKeepsStored(Run(es[..|es| - 1], limit), es[|es| - 1], limit);
    }
  }

  /** Agreement: with any number of managers racing, and no invalidation or renewal taking effect,
      every successful Warm for a key returns the same manifest, in whichever process it ran. */
  lemma WarmCallsAgree(es: seq<Event>, limit: nat, a: Entry, b: Entry)
    requires limit >= 1 && Undisturbed(es, limit)
    requires a in Run(es, limit).returned && b in Run(es, limit).returned && a.key == b.key
    ensures a.manifest == b.manifest
  {
    UndisturbedIsStored(es, limit);
  }

  // ---------------------------------------------------------------------------
  // Validated exactly
  // ---------------------------------------------------------------------------

  /** A commit that lost to a different manifest of the same ID; its winner goes unvalidated. */
  predicate Twin(w: World, e: Event) {
    && e.CheckWinner? && e.call in w.calls && w.calls[e.call].pc.Committed?
    && w.calls[e.call].pc.winner.id == w.calls[e.call].pc.own.id
    && w.calls[e.call].pc.winner != w.calls[e.call].pc.own
  }

  ghost predicate ResultChecked(w: World, c: Call) {
    c.pc.Done? && c.pc.result.Some? ==> Entry(c.mgr, c.key, c.pc.result.value) in w.checked
  }

  ghost predicate CallsChecked(w: World) {
    forall c :: c in w.calls ==> ResultChecked(w, w.calls[c])
  }

  ghost predicate CachesChecked(w: World) {
    forall m, k :: k in ManagerOf(w, m).cached ==> Entry(m, k, ManagerOf(w, m).cached[k]) in w.checked
  }

  /** Every manifest cached, returned or about to be was itself validated by its manager for its key. */
  ghost predicate AllChecked(w: World) {
    CallsChecked(w) && CachesChecked(w) && w.returned <= w.checked
  }

  lemma MoveKeepsChecked(w: World, w': World, c: nat)
    requires AllChecked(w) && c in w.calls && c in w'.calls && w.checked <= w'.checked
    requires w' == WithPc(w, c, w'.calls[c].pc).(checked := w'.checked, repo := w'.repo)
    requires ResultChecked(w', w'.calls[c])
    ensures AllChecked(w')
  {
    forall k | k in w'.calls ensures ResultChecked(w', w'.calls[k]) {
      if k != c { assert ResultChecked(w, w.calls[k]); }
    }
    CachesCheckedGrow(w, w');
  }

  lemma CachesCheckedGrow(w: World, w': World)
    requires CachesChecked(w) && w.checked <= w'.checked && w'.managers == w.managers
    ensures CachesChecked(w')
  {
    forall m, k | k in ManagerOf(w', m).cached ensures Entry(m, k, ManagerOf(w', m).cached[k]) in w'.checked {
      assert k in ManagerOf(w, m).cached;
    }
  }

  lemma RecoverKeepsChecked(w: World, e: Event)
    requires AllChecked(w) && (e.Lookup? || e.UseRenewed? || e.CheckFound? || e.Invalidate? || e.InvalidateLost?)
    ensures AllChecked(NextRecover(w, e))
  {
    var w' := NextRecover(w, e);
    if w' != w { MoveKeepsChecked(w, w', e.call); }
  }

  lemma PublishKeepsChecked(w: World, e: Event, limit: nat)
    requires CallsOk(w) && AllChecked(w) && !Twin(w, e) && (e.Build? || e.Commit? || e.CheckWinner? || e.Fail?)
    ensures AllChecked(NextPublish(w, e, limit))
  {
    var w' := NextPublish(w, e, limit);
    if w' != w {
      assert PcOk(w, w.calls[e.call]);
      MoveKeepsChecked(w, w', e.call);
    }
  }

  lemma FinishKeepsCachesChecked(w: World, c: nat, victim: Key, limit: nat)
    requires CallsOk(w) && AllChecked(w) && NextPublish(w, Finish(c, victim), limit) != w
    ensures CachesChecked(NextPublish(w, Finish(c, victim), limit))
  {
    var w' := NextPublish(w, Finish(c, victim), limit);
    assert ResultChecked(w, w.calls[c]) && PcOk(w, w.calls[c]);
    forall m, k | k in ManagerOf(w', m).cached ensures Entry(m, k, ManagerOf(w', m).cached[k]) in w'.checked {
      CachedByFinish(w, c, victim, limit, m, k);
      if KeptInCache(w, w', m, k) { assert Entry(m, k, ManagerOf(w, m).cached[k]) in w.checked; }
    }
  }

  lemma FinishKeepsChecked(w: World, c: nat, victim: Key, limit: nat)
    requires CallsOk(w) && AllChecked(w)
    ensures AllChecked(NextPublish(w, Finish(c, victim), limit))
  {
    var w' := NextPublish(w, Finish(c, victim), limit);
    if w' != w {
      assert ResultChecked(w, w.calls[c]);
      forall k | k in w'.calls ensures ResultChecked(w', w'.calls[k]) { assert ResultChecked(w, w.calls[k]); }
      FinishKeepsCachesChecked(w, c, victim, limit);
    }
  }

  lemma BeginKeepsChecked(w: World, e: Event)
    requires AllChecked(w) && (e.Hit? || e.BeginWarm? || e.BeginImport? || e.BeginEvict?)
    ensures AllChecked(NextBegin(w, e))
  {
    var w' := NextBegin(w, e);
    forall k | k in w'.calls
      ensures ResultChecked(w', w'.calls[k]) { if k in w.calls { assert ResultChecked(w, w.calls[k]); } }
    forall m, k | k in ManagerOf(w', m).cached ensures Entry(m, k, ManagerOf(w', m).cached[k]) in w'.checked {
      assert k in ManagerOf(w, m).cached;
    }
  }

  lemma NextKeepsChecked(w: World, e: Event, limit: nat)
    requires CallsOk(w) && AllChecked(w) && !Twin(w, e)
    ensures AllChecked(Next(w, e, limit))
  {
    match e
    case Hit(_, _) => BeginKeepsChecked(w, e);
    case BeginWarm(_, _, _) => BeginKeepsChecked(w, e);
    case BeginImport(_, _, _, _) => BeginKeepsChecked(w, e);
    case BeginEvict(_, _, _) => BeginKeepsChecked(w, e);
    case Lookup(_) => RecoverKeepsChecked(w, e);
    case UseRenewed(_, _) => RecoverKeepsChecked(w, e);
    case CheckFound(_, _) => RecoverKeepsChecked(w, e);
    case Invalidate(_) => RecoverKeepsChecked(w, e);
    case InvalidateLost(_) => RecoverKeepsChecked(w, e);
    case Finish(c, victim) => FinishKeepsChecked(w, c, victim, limit);
    case RenewStored(_, _) =>
      forall c | c in w.calls
        ensures ResultChecked(Next(w, e, limit), w.calls[c]) { assert ResultChecked(w, w.calls[c]); }
      CachesCheckedGrow(w, Next(w, e, limit));
    case _ => PublishKeepsChecked(w, e, limit);
  }

  ghost predicate NoTwins(es: seq<Event>, limit: nat) {
    forall i :: 0 <= i < |es| ==> !Twin(Run(es[..i], limit), es[i])
  }

  lemma NoTwinsPrefix(es: seq<Event>, limit: nat)
    requires es != [] && NoTwins(es, limit)
    ensures NoTwins(es[..|es| - 1], limit) && !Twin(Run(es[..|es| - 1], limit), es[|es| - 1])
  {
    var n := |es| - 1;
    forall i | 0 <= i < n ensures es[..n][..i] == es[..i] {}
  }

  /** As long as no commit loses to a different manifest of its own ID, every manifest a manager
      caches or returns was itself validated by it for that very key. */
  lemma {:induction false} ReturnedWereValidated(es: seq<Event>, limit: nat)
    requires limit >= 1 && NoTwins(es, limit)
    ensures AllChecked(Run(es, limit))
  {
    if es != [] {
      NoTwinsPrefix(es, limit);
      ReturnedWereValidated(es[..|es| - 1], limit);
      EveryRunIsSafe(es[..|es| - 1], limit);
      NextKeepsChecked(Run(es[..|es| - 1], limit), es[|es| - 1], limit);
    }
  }

  /** At the check of a winner, the result is one this manager validated exactly when the winner is
      not a twin, or is one it had validated before. */
  lemma WinnerCheckExact(es: seq<Event>, limit: nat, c: nat, ok: bool)
    requires limit >= 1
    requires c in Run(es, limit).calls && Run(es, limit).calls[c].pc.Committed?
    requires Next(Run(es, limit), CheckWinner(c, ok), limit).calls[c].pc.result.Some?
    ensures var w := Run(es, limit); var w' := Next(w, CheckWinner(c, ok), limit); var call := w.calls[c];
      ResultChecked(w', w'.calls[c]) <==>
        !Twin(w, CheckWinner(c, ok)) || Entry(call.mgr, call.key, call.pc.winner) in w.checked
  {
    EveryRunIsSafe(es, limit);
    assert PcOk(Run(es, limit), Run(es, limit).calls[c]);
  }

  lemma RunOneMore(es: seq<Event>, e: Event, limit: nat)
    ensures Run(es + [e], limit) == Next(Run(es, limit), e, limit)
  {
    assert (es + [e])[..|es|] == es;
  }

  /** A manifest is imported and then renewed under its old ID. */
  lemma ImportThenRenew(before: Manifest, after: Manifest, limit: nat) returns (es: seq<Event>, w: World)
    requires before.cacheKey == "k" && SameIdentity(before, after)
    ensures w == Run(es, limit) && w.repo == map["k" := after] && w.calls.Keys == {0}
    ensures w.checked == {Entry(0, "k", before)}
  {
    var e1, e2, e3 := BeginImport(0, 0, "k", before), Commit(0), RenewStored("k", after);
    var w1 := Next(EMPTY, e1, limit);
    assert w1 == World(map[], map[], map[0 := Call(Import, 0, "k", Ready(before))], {Entry(0, "k", before)}, {});
    var w2 := Next(w1, e2, limit);
    assert w2 == World(map["k" := before], map[], map[0 := Call(Import, 0, "k", Committed(before, before))],
      {Entry(0, "k", before)}, {});
    w := Next(w2, e3, limit);
    RunOneMore([], e1, limit);
    RunOneMore([] + [e1], e2, limit);
    RunOneMore([] + [e1] + [e2], e3, limit);
    es := [] + [e1] + [e2] + [e3];
  }

  lemma TwinSteps(w: World, before: Manifest, after: Manifest, limit: nat)
    requires before.cacheKey == after.cacheKey == "k" && before.id == after.id && before != after
    requires w.repo == map["k" := after] && w.calls.Keys == {0} && w.checked == {Entry(0, "k", before)}
    ensures !AllChecked(Next(Next(Next(w, BeginImport(1, 1, "k", before), limit), Commit(1), limit),
      CheckWinner(1, true), limit))
  {
    var w4 := Next(w, BeginImport(1, 1, "k", before), limit);
    assert w4.calls[1] == Call(Import, 1, "k", Ready(before));
    var w5 := Next(w4, Commit(1), limit);
    assert w5.calls[1] == Call(Import, 1, "k", Committed(before, after));
    var w6 := Next(w5, CheckWinner(1, true), limit);
    assert w6.calls[1] == Call(Import, 1, "k", Done(Some(after)));
    assert !ResultChecked(w6, w6.calls[1]);
  }

  /** A twin does slip through: another manager imports the unrenewed manifest, loses to the
      renewed one of the same ID, and is about to cache a manifest it never validated. */
  lemma TwinGoesUnvalidated(limit: nat) returns (es: seq<Event>)
    ensures !AllChecked(Run(es, limit))
  {
    var before, after := Manifest("k", "id", "old", None, "c"), Manifest("k", "id", "new", None, "c");
    var es3, w3 := ImportThenRenew(before, after, limit);
    var e4, e5, e6 := BeginImport(1, 1, "k", before), Commit(1), CheckWinner(1, true);
    var w4 := Next(w3, e4, limit);
    var w5 := Next(w4, e5, limit);
    var w6 := Next(w5, e6, limit);
    TwinSteps(w3, before, after, limit);
    RunOneMore(es3, e4, limit);
    RunOneMore(es3 + [e4], e5, limit);
    RunOneMore(es3 + [e4] + [e5], e6, limit);
    es := es3 + [e4] + [e5] + [e6];
  }
}
