/** Managers over the object store (vgi/catalog_publication.go): every request to the store is a step of
    the publication protocol or leaves the repository alone, so what every protocol run keeps holds
    of managers whose repository is the store. */
module PublicationJoint {
  import opened Wrappers
  import opened Publication
  import opened PublicationSafety
  import opened PublicationAgreement
  import opened PublicationStore

  // ---------------------------------------------------------------------------
  // Every request is a step of the publication protocol
  // ---------------------------------------------------------------------------

  /** Call `c` of the protocol is the one whose repository operation request `r` serves. */
  ghost predicate Drives(w: World, c: nat, s: S3, r: Request) {
    && c in w.calls
    && var call := w.calls[c];
    match r
    case PutIfAbsent(op, m) => op !in s.ops && call.pc == Ready(m)
    case CommitLookup(op) => op in s.ops && s.ops[op].CommitLost? && call.pc == Ready(s.ops[op].m)
    case InvalidateGet(op, key, id) => op !in s.ops && call.key == key && call.pc.Stale? && call.pc.existing.id == id
    case DeleteIfMatch(op) =>
      && op in s.ops && s.ops[op].InvalidateHeld?
      && call.key == s.ops[op].key && call.pc.Stale? && call.pc.existing.id == s.ops[op].id
    case _ => true
  }

  predicate Replaces(s: S3, op: nat, after: Option<Manifest>) {
    && op in s.ops && s.ops[op].RenewHeld? && after.Some? && SameIdentity(s.ops[op].before, after.value)
    && Matches(s, s.ops[op].before.cacheKey, s.ops[op].etag)
  }

  /** The protocol event a request amounts to, if it ends an operation or changes the store. */
  function EventOf(s: S3, r: Request, c: nat): Option<Event> {
    match r
    case PutIfAbsent(_, m) => if m.cacheKey in s.objects then None else Some(Commit(c))
    case CommitLookup(op) =>
      if op in s.ops && s.ops[op].CommitLost?
      then Some(if s.ops[op].m.cacheKey in s.objects then Commit(c) else Fail(c)) else None
    case InvalidateGet(_, key, id) =>
      if key in s.objects && s.objects[key].body.id == id then None else Some(InvalidateLost(c))
    case DeleteIfMatch(op) =>
      if op in s.ops && s.ops[op].InvalidateHeld?
      then Some(if Matches(s, s.ops[op].key, s.ops[op].etag) then Invalidate(c) else InvalidateLost(c)) else None
    case RenewPutIfMatch(op, after) =>
      if Replaces(s, op, after) then Some(RenewStored(s.ops[op].before.cacheKey, after.value)) else None
    case _ => None
  }

  /** The request does to the store what the event does to the protocol's repository, and a commit
      that ends learns the winner the store answered. */
  ghost predicate Matched(w: World, c: nat, s: S3, r: Request, limit: nat) {
    var e, s' := EventOf(s, r, c), Serve(s, r);
    match e
    case None => Repository(s') == w.repo
    case Some(e) =>
      var w' := Next(w, e, limit);
      && w'.repo == Repository(s')
      && (e.Commit? ==> c in w'.calls && w'.calls[c].pc.Committed?)
      && (e.Commit? ==> Answers(s', r.op, AManifest(Some(w'.calls[c].pc.winner))))
      && (e.Fail? ==> Answers(s', r.op, AError))
      && (e.Invalidate? ==> Answers(s', r.op, ABool(true)))
      && (e.InvalidateLost? ==> Answers(s', r.op, ABool(false)))
  }

  lemma CommitIsMatched(w: World, c: nat, s: S3, r: Request, limit: nat)
    requires w.repo == Repository(s) && Drives(w, c, s, r) && (r.PutIfAbsent? || r.CommitLookup?) && Refines(s, r)
    ensures Matched(w, c, s, r, limit)
  {
  }

  lemma InvalidationIsMatched(w: World, c: nat, s: S3, r: Request, limit: nat)
    requires w.repo == Repository(s) && Drives(w, c, s, r) && (r.InvalidateGet? || r.DeleteIfMatch?) && Refines(s, r)
    ensures Matched(w, c, s, r, limit)
  {
  }

  lemma RenewalIsMatched(w: World, c: nat, s: S3, r: Request, limit: nat)
    requires w.repo == Repository(s) && Drives(w, c, s, r)
    requires (r.RenewGet? || r.RenewPutIfMatch? || r.RenewLookup?) && Refines(s, r)
    ensures Matched(w, c, s, r, limit)
  {
  }

  /** The store under the protocol: every request of every interleaving either leaves the repository
      alone or is one event of the protocol, with the same repository after it and the same winner
      of a commit. */
  lemma EveryRequestIsAnEvent(rs: seq<Request>, r: Request, w: World, c: nat, limit: nat)
    requires w.repo == Repository(ServeAll(rs)) && Drives(w, c, ServeAll(rs), r)
    ensures Matched(w, c, ServeAll(rs), r, limit)
  {
    EveryRequestRefines(rs, r);
    if r.PutIfAbsent? || r.CommitLookup? {
      CommitIsMatched(w, c, ServeAll(rs), r, limit);
    } else if r.InvalidateGet? || r.DeleteIfMatch? {
      InvalidationIsMatched(w, c, ServeAll(rs), r, limit);
    } else {
      RenewalIsMatched(w, c, ServeAll(rs), r, limit);
    }
  }

  /** Managers and store together: a request on behalf of a call, or a step of a manager alone. */
  datatype Step = AtStore(request: Request, call: nat) | AtManager(event: Event)

  datatype Joint = Joint(world: World, store: S3)

  function EventsOf(j: Joint, step: Step): seq<Event> {
    match step
    case AtStore(r, c) => (match EventOf(j.store, r, c) case None => [] case Some(e) => [e])
    case AtManager(e) => [e]
  }

  function JointNext(j: Joint, step: Step, limit: nat): Joint {
    var es := EventsOf(j, step);
    Joint(if es == [] then j.world else Next(j.world, es[0], limit),
          if step.AtStore? then Serve(j.store, step.request) else j.store)
  }

  function JointRun(steps: seq<Step>, limit: nat): Joint {
    if steps == [] then Joint(EMPTY, NO_OBJECTS)
    else JointNext(JointRun(steps[..|steps| - 1], limit), steps[|steps| - 1], limit)
  }

  /** A request serves a call that waits for it; a manager alone does not write to the repository. */
  ghost predicate Legal(j: Joint, step: Step) {
    match step
    case AtStore(r, c) => Drives(j.world, c, j.store, r)
    case AtManager(e) => !e.Commit? && !e.Invalidate? && !e.InvalidateLost? && !e.RenewStored?
  }

  ghost predicate LegalRun(steps: seq<Step>, limit: nat) {
    steps == [] ||
    (LegalRun(steps[..|steps| - 1], limit) && Legal(JointRun(steps[..|steps| - 1], limit), steps[|steps| - 1]))
  }

  lemma ManagerKeepsRepo(w: World, e: Event, limit: nat)
    requires !e.Commit? && !e.Invalidate? && !e.InvalidateLost? && !e.RenewStored?
    ensures Next(w, e, limit).repo == w.repo
  {
  }

  /** The protocol events of a joint run, and its requests. */
  function JointEvents(steps: seq<Step>, limit: nat): seq<Event> {
    if steps == [] then []
    else
      var before := steps[..|steps| - 1];
      JointEvents(before, limit) + EventsOf(JointRun(before, limit), steps[|steps| - 1])
  }

  function RequestsOf(steps: seq<Step>): seq<Request> {
    if steps == [] then []
    else
      var last := steps[|steps| - 1];
      RequestsOf(steps[..|steps| - 1]) + (if last.AtStore? then [last.request] else [])
  }

  /** Managers over the store behave as the protocol over its repository: a joint run is the protocol
      run of its events and the store run of its requests, and the objects stand for the repository. */
  lemma {:induction false} JointRunIsProtocolRun(steps: seq<Step>, limit: nat)
    requires LegalRun(steps, limit)
    ensures var j := JointRun(steps, limit);
      && j.world == Run(JointEvents(steps, limit), limit) && j.store == ServeAll(RequestsOf(steps))
      && j.world.repo == Repository(j.store)
  {
    if steps != [] {
      var n := |steps| - 1;
      JointRunIsProtocolRun(steps[..n], limit);
      var j, step := JointRun(steps[..n], limit), steps[n];
      var es, rs := JointEvents(steps[..n], limit), RequestsOf(steps[..n]);
      var more := EventsOf(j, step);
      if more == [] {
        assert es + more == es;
      } else {
        assert more == [more[0]];
        RunOneMore(es, more[0], limit);
      }
      match step
      case AtStore(r, c) =>
        EveryRequestIsAnEvent(rs, r, j.world, c, limit);
        ServeOneMore(rs, r);
      case AtManager(e) =>
        ManagerKeepsRepo(j.world, e, limit);
        assert rs + [] == rs;
    }
  }

  /** So managers over the store are safe in every run, refused deletes and renewals included. */
  lemma ManagersOverStoreAreSafe(steps: seq<Step>, limit: nat)
    requires limit >= 1 && LegalRun(steps, limit)
    ensures Inv(JointRun(steps, limit).world, limit)
  {
    JointRunIsProtocolRun(steps, limit);
    EveryRunIsSafe(JointEvents(steps, limit), limit);
  }

  /** The store accepts a delete or the put of a renewal, or a manager takes a renewed manifest. */
  predicate Disrupts(j: Joint, step: Step) {
    match step
    case AtStore(DeleteIfMatch(op), _) =>
      op in j.store.ops && j.store.ops[op].InvalidateHeld? &&
      Matches(j.store, j.store.ops[op].key, j.store.ops[op].etag)
    case AtStore(RenewPutIfMatch(op, after), _) => Replaces(j.store, op, after)
    case AtManager(UseRenewed(_, _)) => true
    case _ => false
  }

  ghost predicate Quiet(steps: seq<Step>, limit: nat) {
    steps == [] ||
    (Quiet(steps[..|steps| - 1], limit) && !Disrupts(JointRun(steps[..|steps| - 1], limit), steps[|steps| - 1]))
  }

  lemma UndisturbedOneMore(es: seq<Event>, e: Event, limit: nat)
    requires Undisturbed(es, limit) && !Disturbs(Run(es, limit), e)
    ensures Undisturbed(es + [e], limit)
  {
    var all := es + [e];
    forall i | 0 <= i < |all| ensures !Disturbs(Run(all[..i], limit), all[i]) {
      assert all[..i] == if i < |es| then es[..i] else es;
    }
  }

  lemma QuietStep(j: Joint, step: Step)
    requires Legal(j, step) && !Disrupts(j, step) && EventsOf(j, step) != []
    ensures |EventsOf(j, step)| == 1 && !Disturbs(j.world, EventsOf(j, step)[0])
  {
    match step
    case AtStore(r, c) => assert EventOf(j.store, r, c).Some?;
    case AtManager(e) =>
  }

  lemma QuietMore(es: seq<Event>, j: Joint, step: Step, limit: nat)
    requires Undisturbed(es, limit) && j.world == Run(es, limit) && Legal(j, step) && !Disrupts(j, step)
    ensures Undisturbed(es + EventsOf(j, step), limit)
  {
    var more := EventsOf(j, step);
    if more == [] {
      assert es + more == es;
    } else {
      QuietStep(j, step);
      assert more == [more[0]];
      UndisturbedOneMore(es, more[0], limit);
    }
  }

  lemma {:induction false} QuietIsUndisturbed(steps: seq<Step>, limit: nat)
    requires LegalRun(steps, limit) && Quiet(steps, limit)
    ensures Undisturbed(JointEvents(steps, limit), limit)
  {
    if steps != [] {
      var before := steps[..|steps| - 1];
      QuietIsUndisturbed(before, limit);
      JointRunIsProtocolRun(before, limit);
      QuietMore(JointEvents(before, limit), JointRun(before, limit), steps[|steps| - 1], limit);
    }
  }

  /** Agreement over the object store: while it accepts no delete and no renewal, every successful
      Warm for a key returns one manifest, in whichever process it ran: the one the store holds. */
  lemma ManagersOverStoreAgree(steps: seq<Step>, limit: nat, a: Entry, b: Entry)
    requires limit >= 1 && LegalRun(steps, limit) && Quiet(steps, limit)
    requires a in JointRun(steps, limit).world.returned && b in JointRun(steps, limit).world.returned && a.key == b.key
    ensures a.manifest == b.manifest && Fetch(JointRun(steps, limit).store, a.key) == Some(a.manifest)
  {
    QuietIsUndisturbed(steps, limit);
    JointRunIsProtocolRun(steps, limit);
    UndisturbedIsStored(JointEvents(steps, limit), limit);
    assert Stored(JointRun(steps, limit).world, a.key, a.manifest);
  }
}
