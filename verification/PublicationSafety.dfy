/** What every run of the publication protocol keeps: bounded caches, validated manifests and one
    flight per key and manager (vgi/catalog_publication.go). */
module PublicationSafety {
  import opened Publication

  /** This manager validated, for this key, a manifest of this ID. */
  ghost predicate Vouched(w: World, m: nat, k: Key, p: Manifest) {
    && p.cacheKey == k
    && exists q :: Entry(m, k, q) in w.checked && q.id == p.id
  }

  ghost predicate PcOk(w: World, c: Call) {
    match c.pc
    case Start => true
    case Found(e) => e.cacheKey == c.key
    case Stale(e) => e.cacheKey == c.key
    case Building => true
    case Ready(p) => p.cacheKey == c.key && Entry(c.mgr, c.key, p) in w.checked
    case Committed(p, win) => p.cacheKey == c.key && win.cacheKey == c.key && Entry(c.mgr, c.key, p) in w.checked
    case Done(r) => r.Some? ==> Vouched(w, c.mgr, c.key, r.value)
  }

  ghost predicate RepoOk(w: World) {
    forall k :: k in w.repo ==> w.repo[k].cacheKey == k
  }

  ghost predicate CallsOk(w: World) {
    forall c :: c in w.calls ==> PcOk(w, w.calls[c])
  }

  ghost predicate CacheOk(w: World, m: nat, limit: nat) {
    && |ManagerOf(w, m).cached| <= limit
    && forall k :: k in ManagerOf(w, m).cached ==> Vouched(w, m, k, ManagerOf(w, m).cached[k])
  }

  ghost predicate CachesOk(w: World, limit: nat) {
    forall m :: CacheOk(w, m, limit)
  }

  ghost predicate ReturnedOk(w: World) {
    forall e :: e in w.returned ==> Vouched(w, e.mgr, e.key, e.manifest)
  }

  /** The call a pending entry names is a Warm call of that manager and key. */
  ghost predicate PendingNamesCall(w: World, m: nat, k: Key) {
    k in ManagerOf(w, m).pending ==>
      var c := ManagerOf(w, m).pending[k];
      c in w.calls && w.calls[c].kind == Warm && w.calls[c].mgr == m && w.calls[c].key == k
  }

  /** A Warm call in flight is the pending one of its manager and key. */
  ghost predicate CallIsPending(w: World, c: nat) {
    c in w.calls && w.calls[c].kind == Warm ==>
      var p := ManagerOf(w, w.calls[c].mgr).pending;
      w.calls[c].key in p && p[w.calls[c].key] == c
  }

  /** The pending tables list exactly the Warm calls in flight. */
  ghost predicate SingleFlight(w: World) {
    (forall m, k :: PendingNamesCall(w, m, k)) && (forall c :: CallIsPending(w, c))
  }

  ghost predicate Inv(w: World, limit: nat) {
    RepoOk(w) && CallsOk(w) && CachesOk(w, limit) && ReturnedOk(w) && SingleFlight(w)
  }

  // ---------------------------------------------------------------------------
  // Frames
  // ---------------------------------------------------------------------------

  lemma VouchedGrows(w: World, w': World, m: nat, k: Key, p: Manifest)
    requires Vouched(w, m, k, p) && w.checked <= w'.checked
    ensures Vouched(w', m, k, p)
  {
    var q :| Entry(m, k, q) in w.checked && q.id == p.id;
    assert Entry(m, k, q) in w'.checked;
  }

  lemma PcOkGrows(w: World, w': World, c: Call)
    requires PcOk(w, c) && w.checked <= w'.checked
    ensures PcOk(w', c)
  {
    if c.pc.Done? && c.pc.result.Some? { VouchedGrows(w, w', c.mgr, c.key, c.pc.result.value); }
  }

  lemma CachesOkGrow(w: World, w': World, limit: nat)
    requires CachesOk(w, limit) && w.checked <= w'.checked && w'.managers == w.managers
    ensures CachesOk(w', limit)
  {
    forall m ensures CacheOk(w', m, limit) {
      assert CacheOk(w, m, limit);
      forall k | k in ManagerOf(w', m).cached ensures Vouched(w', m, k, ManagerOf(w', m).cached[k]) {
        VouchedGrows(w, w', m, k, ManagerOf(w, m).cached[k]);
      }
    }
  }

  lemma ReturnedOkGrow(w: World, w': World)
    requires ReturnedOk(w) && w.checked <= w'.checked && w'.returned == w.returned
    ensures ReturnedOk(w')
  {
    forall e | e in w'.returned ensures Vouched(w', e.mgr, e.key, e.manifest) {
      VouchedGrows(w, w', e.mgr, e.key, e.manifest);
    }
  }

  /** Moving one call on leaves the single-flight tables as they are. */
  lemma MoveKeepsFlights(w: World, w': World, c: nat)
    requires SingleFlight(w) && c in w.calls && w'.managers == w.managers
    requires c in w'.calls && w'.calls == w.calls[c := w.calls[c].(pc := w'.calls[c].pc)]
    ensures SingleFlight(w')
  {
    forall m, k ensures PendingNamesCall(w', m, k) { assert PendingNamesCall(w, m, k); }
    forall d ensures CallIsPending(w', d) { assert CallIsPending(w, d); }
  }

  lemma MoveKeepsInv(w: World, w': World, c: nat, limit: nat)
    requires Inv(w, limit) && c in w.calls && c in w'.calls
    requires w' == WithPc(w, c, w'.calls[c].pc).(checked := w'.checked, repo := w'.repo)
    requires w.checked <= w'.checked && RepoOk(w') && PcOk(w', w'.calls[c])
    ensures Inv(w', limit)
  {
    forall k | k in w'.calls ensures PcOk(w', w'.calls[k]) {
      if k != c { PcOkGrows(w, w', w.calls[k]); }
    }
    CachesOkGrow(w, w', limit);
    ReturnedOkGrow(w, w');
    MoveKeepsFlights(w, w', c);
  }

  // ---------------------------------------------------------------------------
  // Event by event
  // ---------------------------------------------------------------------------

  lemma HitKeepsInv(w: World, m: nat, k: Key, limit: nat)
    requires Inv(w, limit)
    ensures Inv(NextBegin(w, Hit(m, k)), limit)
  {
    var w' := NextBegin(w, Hit(m, k));
    assert CacheOk(w, m, limit);
    forall c | c in w'.calls ensures PcOk(w', w'.calls[c]) { PcOkGrows(w, w', w.calls[c]); }
    CachesOkGrow(w, w', limit);
    forall e | e in w'.returned ensures Vouched(w', e.mgr, e.key, e.manifest) {
      VouchedGrows(w, w', e.mgr, e.key, e.manifest);
    }
    forall m', k' ensures PendingNamesCall(w', m', k') { assert PendingNamesCall(w, m', k'); }
    forall d ensures CallIsPending(w', d) { assert CallIsPending(w, d); }
  }

  lemma BeginWarmKeepsInv(w: World, c: nat, m: nat, k: Key, limit: nat)
    requires Inv(w, limit)
    ensures Inv(NextBegin(w, BeginWarm(c, m, k)), limit)
  {
    var w' := NextBegin(w, BeginWarm(c, m, k));
    if w' != w {
      forall d | d in w'.calls ensures PcOk(w', w'.calls[d]) { if d != c { PcOkGrows(w, w', w.calls[d]); } }
      forall m' ensures CacheOk(w', m', limit) { CacheUnchanged(w, w', m', limit); }
      ReturnedOkGrow(w, w');
      forall m', k' ensures PendingNamesCall(w', m', k') { assert PendingNamesCall(w, m', k'); }
      forall d ensures CallIsPending(w', d) { assert CallIsPending(w, d); }
    }
  }

  lemma CacheUnchanged(w: World, w': World, m: nat, limit: nat)
    requires CachesOk(w, limit) && w.checked <= w'.checked
    requires forall k :: k in ManagerOf(w', m).cached ==>
      k in ManagerOf(w, m).cached && ManagerOf(w', m).cached[k] == ManagerOf(w, m).cached[k]
    requires |ManagerOf(w', m).cached| <= |ManagerOf(w, m).cached|
    ensures CacheOk(w', m, limit)
  {
    assert CacheOk(w, m, limit);
    forall k | k in ManagerOf(w', m).cached ensures Vouched(w', m, k, ManagerOf(w', m).cached[k]) {
      VouchedGrows(w, w', m, k, ManagerOf(w, m).cached[k]);
    }
  }

  lemma BeginImportKeepsInv(w: World, c: nat, m: nat, k: Key, p: Manifest, limit: nat)
    requires Inv(w, limit)
    ensures Inv(NextBegin(w, BeginImport(c, m, k, p)), limit)
  {
    var w' := NextBegin(w, BeginImport(c, m, k, p));
    if w' != w {
      forall d | d in w'.calls ensures PcOk(w', w'.calls[d]) { if d != c { PcOkGrows(w, w', w.calls[d]); } }
      CachesOkGrow(w, w', limit);
      ReturnedOkGrow(w, w');
      OtherBeginKeepsFlights(w, w', c, Call(Import, m, k, Ready(p)));
    }
  }

  lemma FewerEntries(cached: map<Key, Manifest>, k: Key)
    ensures |cached - {k}| <= |cached|
    ensures k in cached ==> |cached - {k}| == |cached| - 1
  {
    assert (cached - {k}).Keys == cached.Keys - {k};
    assert |cached.Keys| == |cached| && |(cached - {k}).Keys| == |cached - {k}|;
  }

  /** A new Import or Evict call leaves the single-flight tables as they are. */
  lemma OtherBeginKeepsFlights(w: World, w': World, c: nat, call: Call)
    requires SingleFlight(w) && c !in w.calls && call.kind != Warm && w'.calls == w.calls[c := call]
    requires forall m :: ManagerOf(w', m).pending == ManagerOf(w, m).pending
    ensures SingleFlight(w')
  {
    forall m, k ensures PendingNamesCall(w', m, k) { assert PendingNamesCall(w, m, k); }
    forall d ensures CallIsPending(w', d) { assert CallIsPending(w, d); }
  }

  lemma EvictKeepsCache(w: World, c: nat, m: nat, k: Key, m': nat, limit: nat)
    requires CachesOk(w, limit)
    ensures CacheOk(NextBegin(w, BeginEvict(c, m, k)), m', limit)
  {
    FewerEntries(ManagerOf(w, m).cached, k);
    CacheUnchanged(w, NextBegin(w, BeginEvict(c, m, k)), m', limit);
  }

  lemma BeginEvictKeepsInv(w: World, c: nat, m: nat, k: Key, limit: nat)
    requires Inv(w, limit)
    ensures Inv(NextBegin(w, BeginEvict(c, m, k)), limit)
  {
    var w' := NextBegin(w, BeginEvict(c, m, k));
    if w' != w {
      forall d | d in w'.calls ensures PcOk(w', w'.calls[d]) { if d != c { PcOkGrows(w, w', w.calls[d]); } }
      forall m' ensures CacheOk(w', m', limit) { EvictKeepsCache(w, c, m, k, m', limit); }
      ReturnedOkGrow(w, w');
      OtherBeginKeepsFlights(w, w', c, Call(Evict, m, k, Start));
    }
  }

  lemma RecoverKeepsInv(w: World, e: Event, limit: nat)
    requires Inv(w, limit) && (e.Lookup? || e.UseRenewed? || e.CheckFound? || e.Invalidate? || e.InvalidateLost?)
    ensures Inv(NextRecover(w, e), limit)
  {
    var w' := NextRecover(w, e);
    if w' != w {
      assert PcOk(w, w.calls[e.call]);
      if e.CheckFound? && w'.calls[e.call].pc.Done? { assert Entry(w.calls[e.call].mgr, w.calls[e.call].key,
        w.calls[e.call].pc.existing) in w'.checked; }
      MoveKeepsInv(w, w', e.call, limit);
    }
  }

  lemma PublishKeepsInv(w: World, e: Event, limit: nat)
    requires Inv(w, limit) && (e.Build? || e.Commit? || e.CheckWinner? || e.Fail?)
    ensures Inv(NextPublish(w, e, limit), limit)
  {
    var w' := NextPublish(w, e, limit);
    if w' != w {
      assert PcOk(w, w.calls[e.call]);
      MoveKeepsInv(w, w', e.call, limit);
    }
  }

  /** remember keeps the cache within its limit. */
  lemma RememberBounded(cached: map<Key, Manifest>, p: Manifest, limit: nat, victim: Key)
    requires limit >= 1 && |cached| <= limit && (|cached| >= limit ==> victim in cached)
    ensures |Remember(cached, p, limit, victim)| <= limit
  {
    var room := if |cached| >= limit then cached - {victim} else cached;
    FewerEntries(cached, victim);
    assert room[p.cacheKey := p].Keys == room.Keys + {p.cacheKey};
    assert |room.Keys| == |room| && |room[p.cacheKey := p].Keys| == |room[p.cacheKey := p]|;
  }

  /** A manager's manifest cache. */
  class SnapshotCache {
    const limit: nat
    var cached: map<Key, Manifest>

    ghost predicate Valid()
      reads this
    {
      limit >= 1 && |cached| <= limit
    }

    constructor (maxCached: int)
      ensures Valid() && limit == Limit(maxCached) && cached == map[]
    {
      limit := Limit(maxCached);
      cached := map[];
    }

    /** remember: makes room by dropping some entry when the cache is full, then stores. */
    method Store(p: Manifest) returns (ghost victim: Key)
      requires Valid()
      modifies this
      ensures Valid()
      ensures |old(cached)| >= limit ==> victim in old(cached)
      ensures cached == Remember(old(cached), p, limit, victim)
    {
      victim := "";
      RememberBoundedAny(cached, p, limit);
      if |cached| >= limit {
        assert |cached.Keys| == |cached|;
        var key :| key in cached;
        victim := key;
        cached := cached - {key};
      }
      cached := cached[p.cacheKey := p];
    }
  }

  lemma RememberBoundedAny(cached: map<Key, Manifest>, p: Manifest, limit: nat)
    requires limit >= 1 && |cached| <= limit
    ensures forall victim :: (|cached| >= limit ==> victim in cached) ==> |Remember(cached, p, limit, victim)| <= limit
  {
    forall victim | |cached| >= limit ==> victim in cached ensures |Remember(cached, p, limit, victim)| <= limit {
      RememberBounded(cached, p, limit, victim);
    }
  }

  lemma RememberedIsVouched(w: World, w': World, m: nat, r: Manifest, limit: nat, victim: Key)
    requires CachesOk(w, limit) && limit >= 1 && w.checked <= w'.checked && Vouched(w, m, r.cacheKey, r)
    requires |ManagerOf(w, m).cached| >= limit ==> victim in ManagerOf(w, m).cached
    requires ManagerOf(w', m).cached == Remember(ManagerOf(w, m).cached, r, limit, victim)
    ensures CacheOk(w', m, limit)
  {
    var cached := ManagerOf(w, m).cached;
    assert CacheOk(w, m, limit);
    RememberBounded(cached, r, limit, victim);
    forall k | k in ManagerOf(w', m).cached ensures Vouched(w', m, k, ManagerOf(w', m).cached[k]) {
      if k == r.cacheKey { VouchedGrows(w, w', m, k, r); } else { VouchedGrows(w, w', m, k, cached[k]); }
    }
  }

  lemma FinishKeepsOneCache(w: World, c: nat, victim: Key, limit: nat, m: nat)
    requires CachesOk(w, limit) && CallsOk(w) && limit >= 1
    requires NextPublish(w, Finish(c, victim), limit) != w
    ensures CacheOk(NextPublish(w, Finish(c, victim), limit), m, limit)
  {
    var w', call := NextPublish(w, Finish(c, victim), limit), w.calls[c];
    if m == call.mgr && call.pc.result.Some? {
      assert PcOk(w, call);
      RememberedIsVouched(w, w', m, call.pc.result.value, limit, victim);
    } else {
      CacheUnchanged(w, w', m, limit);
    }
  }

  lemma FinishKeepsCaches(w: World, c: nat, victim: Key, limit: nat)
    requires Inv(w, limit) && limit >= 1
    ensures CachesOk(NextPublish(w, Finish(c, victim), limit), limit)
  {
    if NextPublish(w, Finish(c, victim), limit) != w {
      forall m ensures CacheOk(NextPublish(w, Finish(c, victim), limit), m, limit) {
        FinishKeepsOneCache(w, c, victim, limit, m);
      }
    }
  }

  lemma FinishKeepsRest(w: World, c: nat, victim: Key, limit: nat)
    requires Inv(w, limit)
    ensures var w' := NextPublish(w, Finish(c, victim), limit); RepoOk(w') && CallsOk(w') && ReturnedOk(w')
  {
    var w' := NextPublish(w, Finish(c, victim), limit);
    if w' != w {
      assert PcOk(w, w.calls[c]);
      forall k | k in w'.calls ensures PcOk(w', w'.calls[k]) { PcOkGrows(w, w', w.calls[k]); }
      forall e | e in w'.returned
        ensures Vouched(w', e.mgr, e.key, e.manifest) { VouchedGrows(w, w', e.mgr, e.key, e.manifest); }
    }
  }

  lemma FinishKeepsFlights(w: World, c: nat, victim: Key, limit: nat)
    requires Inv(w, limit)
    ensures SingleFlight(NextPublish(w, Finish(c, victim), limit))
  {
    var w' := NextPublish(w, Finish(c, victim), limit);
    if w' != w {
      assert CallIsPending(w, c);
      forall m, k ensures PendingNamesCall(w', m, k) { assert PendingNamesCall(w, m, k); }
      forall d ensures CallIsPending(w', d) { assert CallIsPending(w, d); }
    }
  }

  lemma RenewKeepsInv(w: World, k: Key, after: Manifest, limit: nat)
    requires Inv(w, limit)
    ensures Inv(Next(w, RenewStored(k, after), limit), limit)
  {
    var w' := Next(w, RenewStored(k, after), limit);
    forall c | c in w'.calls ensures PcOk(w', w'.calls[c]) { PcOkGrows(w, w', w.calls[c]); }
    CachesOkGrow(w, w', limit);
    ReturnedOkGrow(w, w');
    forall m, k' ensures PendingNamesCall(w', m, k') { assert PendingNamesCall(w, m, k'); }
    forall d ensures CallIsPending(w', d) { assert CallIsPending(w, d); }
  }

  lemma NextKeepsInv(w: World, e: Event, limit: nat)
    requires Inv(w, limit) && limit >= 1
    ensures Inv(Next(w, e, limit), limit)
  {
    match e
    case Finish(c, victim) =>
      FinishKeepsCaches(w, c, victim, limit);
      FinishKeepsRest(w, c, victim, limit);
      FinishKeepsFlights(w, c, victim, limit);
    case RenewStored(k, after) => RenewKeepsInv(w, k, after, limit);
    case Hit(m, k) => HitKeepsInv(w, m, k, limit);
    case BeginWarm(c, m, k) => BeginWarmKeepsInv(w, c, m, k, limit);
    case BeginImport(c, m, k, p) => BeginImportKeepsInv(w, c, m, k, p, limit);
    case BeginEvict(c, m, k) => BeginEvictKeepsInv(w, c, m, k, limit);
    case Lookup(_) => RecoverKeepsInv(w, e, limit);
    case UseRenewed(_, _) => RecoverKeepsInv(w, e, limit);
    case CheckFound(_, _) => RecoverKeepsInv(w, e, limit);
    case Invalidate(_) => RecoverKeepsInv(w, e, limit);
    case InvalidateLost(_) => RecoverKeepsInv(w, e, limit);
    case _ => PublishKeepsInv(w, e, limit);
  }

  /** In every run, with invalidations, refused ones among them, and renewals of any content: caches
      stay within their limit, every cached
      or returned manifest has the key it is served for and an ID the manager validated for that
      key, and the pending tables list exactly the Warm calls in flight. */
  lemma {:induction false} EveryRunIsSafe(es: seq<Event>, limit: nat)
    requires limit >= 1
    ensures Inv(Run(es, limit), limit)
  {
    if es != [] {
      EveryRunIsSafe(es[..|es| - 1], limit);
      NextKeepsInv(Run(es[..|es| - 1], limit), es[|es| - 1], limit);
    }
  }

  ghost predicate SameFlight(w: World, a: nat, b: nat) {
    && a in w.calls && b in w.calls && w.calls[a].kind == Warm && w.calls[b].kind == Warm
    && w.calls[a].mgr == w.calls[b].mgr && w.calls[a].key == w.calls[b].key
  }

  /** A manager never has two publications of one key in flight. */
  lemma OneFlightPerKey(es: seq<Event>, limit: nat, a: nat, b: nat)
    requires limit >= 1 && SameFlight(Run(es, limit), a, b)
    ensures a == b
  {
    EveryRunIsSafe(es, limit);
    assert CallIsPending(Run(es, limit), a) && CallIsPending(Run(es, limit), b);
  }
}
