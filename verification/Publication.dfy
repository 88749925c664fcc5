/** Publication of catalog snapshots: any number of managers, each with its own cache and its own
    single-flight table, racing on one manifest repository whose commit and invalidation are atomic
    per key (vgi/catalog_publication.go). Every step a call takes between two atomic actions is a
    separate event, so a run is any interleaving of any number of calls. */
module Publication {
  import opened Wrappers

  type Key = string

  /** `content` stands for every field a renewal must not change, the cache key apart. */
  datatype Manifest = Manifest(cacheKey: Key, id: string, url: string, expiresAt: Option<int>, content: string)

  /** checkPublicationRenewal: only the URL, the expiry and the manifest ID may differ. */
  predicate SameIdentity(before: Manifest, after: Manifest) {
    before.cacheKey == after.cacheKey && before.content == after.content
  }

  type Repo = map<Key, Manifest>

  /** CommitIfAbsent of the memory repository: the repository after it and the winner. */
  function CommitIfAbsent(repo: Repo, m: Manifest): (Repo, Manifest) {
    if m.cacheKey in repo then (repo, repo[m.cacheKey]) else (repo[m.cacheKey := m], m)
  }

  /** Invalidate of the memory repository. */
  function InvalidateById(repo: Repo, key: Key, id: string): (Repo, bool) {
    if key in repo && repo[key].id == id then (repo - {key}, true) else (repo, false)
  }

  /** What a call is for. */
  datatype Kind = Warm | Import | Evict

  /** Where a call stands between two atomic actions. */
  datatype Pc =
    | Start                                       // about to look the key up
    | Found(existing: Manifest)                   // a manifest to validate
    | Stale(existing: Manifest)                   // to be invalidated
    | Building                                    // nothing usable: build and upload
    | Ready(own: Manifest)                        // validated, about to commit
    | Committed(own: Manifest, winner: Manifest)  // about to check the winner
    | Done(result: Option<Manifest>)              // about to remember and wake the waiters

  datatype Call = Call(kind: Kind, mgr: nat, key: Key, pc: Pc)

  datatype Manager = Manager(cached: map<Key, Manifest>, pending: map<Key, nat>)

  /** A validated manifest, or one handed to a caller: by which manager and for which key. */
  datatype Entry = Entry(mgr: nat, key: Key, manifest: Manifest)

  /** `checked` records every successful validation, `returned` everything handed to a caller of Warm. */
  datatype World = World(
    repo: Repo,
    managers: map<nat, Manager>,
    calls: map<nat, Call>,
    checked: set<Entry>,
    returned: set<Entry>)

  datatype Event =
    | Hit(mgr: nat, key: Key)                                  // Warm served from a usable cached manifest
    | BeginWarm(call: nat, mgr: nat, key: Key)
    | BeginImport(call: nat, mgr: nat, key: Key, manifest: Manifest)  // validated before anything else
    | BeginEvict(call: nat, mgr: nat, key: Key)
    | Lookup(call: nat)
    | UseRenewed(call: nat, renewed: Manifest)
    | CheckFound(call: nat, ok: bool)
    | Invalidate(call: nat)
    | InvalidateLost(call: nat)                                // the store refused: what was read is no longer there
    | Build(call: nat, manifest: Manifest)                     // built, uploaded and read back
    | Commit(call: nat)
    | CheckWinner(call: nat, ok: bool)
    | Fail(call: nat)
    | Finish(call: nat, victim: Key)
    | RenewStored(key: Key, after: Manifest)                   // a renewal replaces the stored manifest

  function Limit(maxCached: int): (n: nat)
    ensures n >= 1 && (maxCached >= 1 ==> n == maxCached) && (maxCached <= 0 ==> n == 128)
  {
    if maxCached <= 0 then 128 else maxCached
  }

  /** remember: evicts one entry when full, then stores. */
  function Remember(cached: map<Key, Manifest>, p: Manifest, limit: nat, victim: Key): map<Key, Manifest> {
    (if |cached| >= limit then cached - {victim} else cached)[p.cacheKey := p]
  }

  function WithPc(w: World, c: nat, pc: Pc): World
    requires c in w.calls
  {
    w.(calls := w.calls[c := w.calls[c].(pc := pc)])
  }

  function ManagerOf(w: World, m: nat): Manager {
    if m in w.managers then w.managers[m] else Manager(map[], map[])
  }

  /** Begins of calls. */
  function NextBegin(w: World, e: Event): World {
    match e
    case Hit(m, k) =>
      if k in ManagerOf(w, m).cached then w.(returned := w.returned + {Entry(m, k, ManagerOf(w, m).cached[k])}) else w
    case BeginWarm(c, m, k) =>
      if c in w.calls || k in ManagerOf(w, m).pending then w
      else w.(calls := w.calls[c := Call(Warm, m, k, Start)],
              managers := w.managers[m := ManagerOf(w, m).(pending := ManagerOf(w, m).pending[k := c])])
    case BeginImport(c, m, k, p) =>
      if c in w.calls || p.cacheKey != k then w
      else w.(calls := w.calls[c := Call(Import, m, k, Ready(p))], checked := w.checked + {Entry(m, k, p)})
    case BeginEvict(c, m, k) =>
      if c in w.calls then w
      else w.(calls := w.calls[c := Call(Evict, m, k, Start)],
              managers := w.managers[m := ManagerOf(w, m).(cached := ManagerOf(w, m).cached - {k})])
    case _ => w
  }

  /** Looking up, validating and invalidating an existing manifest. */
  function NextRecover(w: World, e: Event): World {
    match e
    case Lookup(c) =>
      if c !in w.calls || w.calls[c].pc != Start then w
      else
        var k := w.calls[c].key;
        if k !in w.repo then WithPc(w, c, if w.calls[c].kind == Evict then Done(None) else Building)
        else WithPc(w, c, if w.calls[c].kind == Evict then Stale(w.repo[k]) else Found(w.repo[k]))
    case UseRenewed(c, r) =>
      if c !in w.calls || !w.calls[c].pc.Found? then w
      else WithPc(w, c, if SameIdentity(w.calls[c].pc.existing, r) then Found(r) else Done(None))
    case CheckFound(c, ok) =>
      if c !in w.calls || !w.calls[c].pc.Found? then w
      else
        var call := w.calls[c];
        var p := call.pc.existing;
        if ok && p.cacheKey == call.key
        then WithPc(w, c, Done(Some(p))).(checked := w.checked + {Entry(call.mgr, call.key, p)})
        else WithPc(w, c, Stale(p))
    case Invalidate(c) =>
      if c !in w.calls || !w.calls[c].pc.Stale? then w
      else
        var call := w.calls[c];
        WithPc(w, c, if call.kind == Evict then Done(None) else Building).(
          repo := InvalidateById(w.repo, call.key, call.pc.existing.id).0)
    case InvalidateLost(c) =>
      if c !in w.calls || !w.calls[c].pc.Stale? then w
      else WithPc(w, c, if w.calls[c].kind == Evict then Done(None) else Building)
    case _ => w
  }

  /** Building, committing and finishing. */
  function NextPublish(w: World, e: Event, limit: nat): World {
    match e
    case Build(c, p) =>
      if c !in w.calls || w.calls[c].pc != Building || p.cacheKey != w.calls[c].key then w
      else WithPc(w, c, Ready(p)).(checked := w.checked + {Entry(w.calls[c].mgr, w.calls[c].key, p)})
    case Commit(c) =>
      if c !in w.calls || !w.calls[c].pc.Ready? then w
      else
        var p := w.calls[c].pc.own;
        var (repo, winner) := CommitIfAbsent(w.repo, p);
        WithPc(w, c, Committed(p, winner)).(repo := repo)
    case CheckWinner(c, ok) =>
      if c !in w.calls || !w.calls[c].pc.Committed? then w
      else
        var call := w.calls[c];
        var win := call.pc.winner;
        if win.id == call.pc.own.id then WithPc(w, c, Done(Some(win)))
        else if ok && win.cacheKey == call.key
        then WithPc(w, c, Done(Some(win))).(checked := w.checked + {Entry(call.mgr, call.key, win)})
        else WithPc(w, c, Done(None))
    case Fail(c) =>
      if c !in w.calls || w.calls[c].pc.Done? then w else WithPc(w, c, Done(None))
    case Finish(c, victim) =>
      if c !in w.calls || !w.calls[c].pc.Done? then w
      else
        var call := w.calls[c];
        var mgr := ManagerOf(w, call.mgr);
        if call.pc.result.Some? && |mgr.cached| >= limit && victim !in mgr.cached then w
        else
          var cached := if call.pc.result.Some? then Remember(mgr.cached, call.pc.result.value, limit, victim)
            else mgr.cached;
          var pending := if call.kind == Warm then mgr.pending - {call.key} else mgr.pending;
          w.(calls := w.calls - {c},
             managers := w.managers[call.mgr := Manager(cached, pending)],
             returned := if call.kind == Warm && call.pc.result.Some?
                         then w.returned + {Entry(call.mgr, call.key, call.pc.result.value)} else w.returned)
    case _ => w
  }

  /** One atomic action; an event that is not enabled changes nothing. */
  function Next(w: World, e: Event, limit: nat): World {
    match e
    case Hit(_, _) => NextBegin(w, e)
    case BeginWarm(_, _, _) => NextBegin(w, e)
    case BeginImport(_, _, _, _) => NextBegin(w, e)
    case BeginEvict(_, _, _) => NextBegin(w, e)
    case Lookup(_) => NextRecover(w, e)
    case UseRenewed(_, _) => NextRecover(w, e)
    case CheckFound(_, _) => NextRecover(w, e)
    case Invalidate(_) => NextRecover(w, e)
    case InvalidateLost(_) => NextRecover(w, e)
    case RenewStored(k, after) =>
      if k in w.repo && after.cacheKey == k then w.(repo := w.repo[k := after]) else w
    case _ => NextPublish(w, e, limit)
  }

  const EMPTY: World := World(map[], map[], map[], {}, {})

  function Run(es: seq<Event>, limit: nat): World {
    if es == [] then EMPTY else Next(Run(es[..|es| - 1], limit), es[|es| - 1], limit)
  }
}
