/** The S3 repository: manifests kept as objects, each repository operation a get followed by a
    conditional write (vgi/catalog_publication.go), with If-Match and If-None-Match as in sections
    13.1.1 and 13.1.2 of RFC 9110. Under every interleaving each request has the effect of one atomic
    repository operation or none, and is one step of the publication protocol; two answers, those of
    a refused delete and of a lost renewal, can differ from the atomic ones, and when they do is proved
    exactly. */
module PublicationStore {
  import opened Wrappers
  import opened Publication

  // ---------------------------------------------------------------------------
  // The atomic repository
  // ---------------------------------------------------------------------------

  /** MemoryCatalogPublicationRepository, under its mutex. */
  class MemoryRepository {
    var manifests: map<Key, Manifest>

    constructor ()
      ensures manifests == map[]
    {
      manifests := map[];
    }

    method Lookup(key: Key) returns (m: Option<Manifest>)
      ensures m == if key in manifests then Some(manifests[key]) else None
    {
      if key !in manifests { return None; }
      return Some(manifests[key]);
    }

    method Commit(m: Manifest) returns (winner: Manifest)
      modifies this
      ensures (manifests, winner) == CommitIfAbsent(old(manifests), m)
      ensures m.cacheKey in manifests && manifests[m.cacheKey] == winner
    {
      if m.cacheKey in manifests { return manifests[m.cacheKey]; }
      manifests := manifests[m.cacheKey := m];
      return m;
    }

    method Invalidate(key: Key, id: string) returns (removed: bool)
      modifies this
      ensures (manifests, removed) == InvalidateById(old(manifests), key, id)
    {
      if key in manifests && manifests[key].id == id {
        manifests := manifests - {key};
        return true;
      }
      return false;
    }
  }

  // ---------------------------------------------------------------------------
  // The object store and the operations on it
  // ---------------------------------------------------------------------------

  datatype Object = Object(body: Manifest, etag: nat)

  datatype Answer = AManifest(manifest: Option<Manifest>) | ABool(removed: bool) | AError

  /** An operation between two requests to the store, or its answer. */
  datatype Op =
    | CommitLost(m: Manifest)                                     // the put found an object: look it up
    | RenewHeld(before: Manifest, etag: nat, read: Manifest)      // read, to be replaced if unchanged
    | RenewLost(before: Manifest, etag: nat, offered: Manifest)   // replaced meanwhile: look it up
    | InvalidateHeld(key: Key, id: string, etag: nat, read: Manifest)
    | Answered(answer: Answer)

  datatype S3 = S3(objects: map<Key, Object>, nextEtag: nat, ops: map<nat, Op>)

  datatype Request =
    | PutIfAbsent(op: nat, m: Manifest)
    | CommitLookup(op: nat)
    | RenewGet(op: nat, before: Manifest)
    | RenewPutIfMatch(op: nat, after: Option<Manifest>)           // `None`: the renew callback gave nothing
    | RenewLookup(op: nat)
    | InvalidateGet(op: nat, key: Key, id: string)
    | DeleteIfMatch(op: nat)

  function Fetch(s: S3, key: Key): Option<Manifest> {
    if key in s.objects then Some(s.objects[key].body) else None
  }

  function Put(s: S3, key: Key, m: Manifest): S3 {
    s.(objects := s.objects[key := Object(m, s.nextEtag)], nextEtag := s.nextEtag + 1)
  }

  predicate Matches(s: S3, key: Key, etag: nat) {
    key in s.objects && s.objects[key].etag == etag
  }

  function Become(s: S3, op: nat, state: Op): S3 {
    s.(ops := s.ops[op := state])
  }

  /** One request to the store, atomic on its side. */
  function Serve(s: S3, r: Request): S3 {
    match r
    case PutIfAbsent(op, m) =>
      if op in s.ops then s
      else if m.cacheKey in s.objects then Become(s, op, CommitLost(m))
      else Become(Put(s, m.cacheKey, m), op, Answered(AManifest(Some(m))))
    case CommitLookup(op) =>
      if op !in s.ops || !s.ops[op].CommitLost? then s
      else
        var found := Fetch(s, s.ops[op].m.cacheKey);
        Become(s, op, Answered(if found.None? then AError else AManifest(found)))
    case RenewGet(op, before) =>
      if op in s.ops then s
      else if before.cacheKey !in s.objects then Become(s, op, Answered(AManifest(None)))
      else
        var o := s.objects[before.cacheKey];
        Become(s, op, if o.body.id != before.id then Answered(AManifest(Some(o.body)))
          else RenewHeld(before, o.etag, o.body))
    case RenewPutIfMatch(op, after) =>
      if op !in s.ops || !s.ops[op].RenewHeld? then s
      else
        var held := s.ops[op];
        if after.None? then Become(s, op, Answered(AManifest(None)))
        else if !SameIdentity(held.before, after.value) then Become(s, op, Answered(AError))
        else if Matches(s, held.before.cacheKey, held.etag)
        then Become(Put(s, held.before.cacheKey, after.value), op, Answered(AManifest(after)))
        else Become(s, op, RenewLost(held.before, held.etag, after.value))
    case RenewLookup(op) =>
      if op !in s.ops || !s.ops[op].RenewLost? then s
      else Become(s, op, Answered(AManifest(Fetch(s, s.ops[op].before.cacheKey))))
    case InvalidateGet(op, key, id) =>
      if op in s.ops then s
      else if key !in s.objects then Become(s, op, Answered(ABool(false)))
      else
        var o := s.objects[key];
        Become(s, op, if o.body.id != id then Answered(ABool(false)) else InvalidateHeld(key, id, o.etag, o.body))
    case DeleteIfMatch(op) =>
      if op !in s.ops || !s.ops[op].InvalidateHeld? then s
      else
        var held := s.ops[op];
        if Matches(s, held.key, held.etag) then Become(s.(objects := s.objects - {held.key}), op, Answered(ABool(true)))
        else Become(s, op, Answered(ABool(false)))
  }

  const NO_OBJECTS: S3 := S3(map[], 0, map[])

  function ServeAll(rs: seq<Request>): S3 {
    if rs == [] then NO_OBJECTS else Serve(ServeAll(rs[..|rs| - 1]), rs[|rs| - 1])
  }

  // ---------------------------------------------------------------------------
  // Refinement
  // ---------------------------------------------------------------------------

  /** The repository the objects stand for. */
  function Repository(s: S3): Repo {
    map k | k in s.objects :: s.objects[k].body
  }

  /** An ETag held by an operation still means the body that was read, and one that was lost does not come back. */
  ghost predicate HoldOk(s: S3, key: Key, etag: nat, read: Manifest) {
    etag < s.nextEtag && (Matches(s, key, etag) ==> s.objects[key].body == read)
  }

  ghost predicate OpOk(s: S3, op: Op) {
    match op
    case RenewHeld(before, etag, read) => HoldOk(s, before.cacheKey, etag, read) && read.id == before.id
    case RenewLost(before, etag, offered) =>
      etag < s.nextEtag && !Matches(s, before.cacheKey, etag) && SameIdentity(before, offered)
    case InvalidateHeld(key, id, etag, read) => HoldOk(s, key, etag, read) && read.id == id
    case _ => true
  }

  ghost predicate EtagsMeanBodies(s: S3) {
    && (forall k :: k in s.objects ==> s.objects[k].etag < s.nextEtag && s.objects[k].body.cacheKey == k)
    && (forall o :: o in s.ops ==> OpOk(s, s.ops[o]))
  }

  lemma OpOkSurvives(s: S3, s': S3, op: Op)
    requires OpOk(s, op) && s.nextEtag <= s'.nextEtag
    requires forall k :: k in s'.objects ==>
      (k in s.objects && s'.objects[k] == s.objects[k]) || s'.objects[k].etag >= s.nextEtag
    ensures OpOk(s', op)
  {
  }

  lemma BecomeKeepsEtags(s: S3, s1: S3, op: nat, state: Op)
    requires EtagsMeanBodies(s) && s1.ops == s.ops && s.nextEtag <= s1.nextEtag && OpOk(s1, state)
    requires forall k :: k in s1.objects ==>
      (k in s.objects && s1.objects[k] == s.objects[k]) || s1.objects[k].etag >= s.nextEtag
    requires forall k :: k in s1.objects ==> s1.objects[k].etag < s1.nextEtag && s1.objects[k].body.cacheKey == k
    ensures EtagsMeanBodies(Become(s1, op, state))
  {
    var s' := Become(s1, op, state);
    forall o | o in s'.ops ensures OpOk(s', s'.ops[o]) {
      if o != op {
        assert OpOk(s, s.ops[o]);
        OpOkSurvives(s, s', s.ops[o]);
      }
    }
  }

  lemma RenewPutKeepsEtags(s: S3, r: Request)
    requires EtagsMeanBodies(s) && r.RenewPutIfMatch?
    ensures EtagsMeanBodies(Serve(s, r))
  {
    var s' := Serve(s, r);
    if s' != s {
      assert OpOk(s, s.ops[r.op]);
      BecomeKeepsEtags(s, s'.(ops := s.ops), r.op, s'.ops[r.op]);
    }
  }

  lemma ServeKeepsEtags(s: S3, r: Request)
    requires EtagsMeanBodies(s)
    ensures EtagsMeanBodies(Serve(s, r))
  {
    var s' := Serve(s, r);
    if r.RenewPutIfMatch? {
      RenewPutKeepsEtags(s, r);
    } else if s' != s {
      if r.op in s.ops { assert OpOk(s, s.ops[r.op]); }
      BecomeKeepsEtags(s, s'.(ops := s.ops), r.op, s'.ops[r.op]);
    }
  }

  lemma {:induction false} EtagsAlwaysMeanBodies(rs: seq<Request>)
    ensures EtagsMeanBodies(ServeAll(rs))
  {
    if rs != [] {
      EtagsAlwaysMeanBodies(rs[..|rs| - 1]);
      ServeKeepsEtags(ServeAll(rs[..|rs| - 1]), rs[|rs| - 1]);
    }
  }

  /** A renewal as one atomic operation: the stored manifest if it has another ID, else what the
      renew callback gave in its place. */
  function RenewById(repo: Repo, before: Manifest, after: Option<Manifest>): (Repo, Option<Manifest>) {
    var key := before.cacheKey;
    if key !in repo then (repo, None)
    else if repo[key].id != before.id then (repo, Some(repo[key]))
    else if after.None? then (repo, None)
    else (repo[key := after.value], after)
  }

  predicate Answers(s: S3, op: nat, answer: Answer) {
    op in s.ops && s.ops[op] == Answered(answer)
  }

  predicate Pending(s: S3, op: nat) {
    op in s.ops && !s.ops[op].Answered?
  }

  /** A commit takes effect at its put or, when it lost, at its lookup. */
  ghost predicate CommitRefines(s: S3, op: nat, m: Manifest, s': S3) {
    var atomic := CommitIfAbsent(Repository(s), m);
    Repository(s') == atomic.0 && (Pending(s', op) || Answers(s', op, AManifest(Some(atomic.1))))
  }

  ghost predicate CommitLookupRefines(s: S3, op: nat, m: Manifest, s': S3) {
    var atomic := CommitIfAbsent(Repository(s), m);
    && Repository(s') == Repository(s)
    && (if m.cacheKey in Repository(s)
        then atomic.0 == Repository(s) && Answers(s', op, AManifest(Some(atomic.1)))
        else Answers(s', op, AError))
  }

  /** An invalidation removes exactly the manifest it read, by its ID, or nothing. */
  ghost predicate DeleteRefines(s: S3, op: nat, held: Op, s': S3)
    requires held.InvalidateHeld?
  {
    var before, after := Repository(s), Repository(s');
    if Matches(s, held.key, held.etag)
    then && held.key in before && before[held.key] == held.read
         && InvalidateById(before, held.key, held.id) == (after, true) && Answers(s', op, ABool(true))
    else after == before && Answers(s', op, ABool(false))
  }

  ghost predicate InvalidateGetRefines(s: S3, op: nat, key: Key, id: string, s': S3) {
    var before := Repository(s);
    && Repository(s') == before
    && (Pending(s', op) || (Answers(s', op, ABool(false)) && InvalidateById(before, key, id) == (before, false)))
  }

  /** A renewal replaces exactly the manifest it read; one that is given nothing takes effect, as
      nothing, when it reads. */
  ghost predicate RenewGetRefines(s: S3, op: nat, asked: Manifest, s': S3) {
    var before := Repository(s);
    var atomic := RenewById(before, asked, None);
    && Repository(s') == before == atomic.0
    && (if Pending(s', op) then atomic.1 == None else Answers(s', op, AManifest(atomic.1)))
  }

  ghost predicate RenewPutRefines(s: S3, op: nat, held: Op, new_: Option<Manifest>, s': S3)
    requires held.RenewHeld?
  {
    var before, after, key := Repository(s), Repository(s'), held.before.cacheKey;
    if new_.Some? && SameIdentity(held.before, new_.value) && Matches(s, key, held.etag)
    then && key in before && before[key] == held.read && held.read.id == held.before.id
         && RenewById(before, held.before, new_) == (after, new_) && Answers(s', op, AManifest(new_))
    else
      && after == before
      && (if new_.None? then Answers(s', op, AManifest(None))
          else if !SameIdentity(held.before, new_.value) then Answers(s', op, AError)
          else op in s'.ops && s'.ops[op] == RenewLost(held.before, held.etag, new_.value))
  }

  /** Every request has the effect of one atomic repository operation, or none. An answer is the one
      the atomic operation gives at that moment, but for a refused delete and a lost renewal, and for
      a renewal that was given nothing, which answers as it would have when it read. Another identity
      is an error, and a commit whose winner is gone at its lookup too. */
  ghost predicate Refines(s: S3, r: Request) {
    var s' := Serve(s, r);
    var same := Repository(s') == Repository(s);
    match r
    case PutIfAbsent(op, m) => if op in s.ops then same else CommitRefines(s, op, m, s')
    case CommitLookup(op) =>
      if op in s.ops && s.ops[op].CommitLost? then CommitLookupRefines(s, op, s.ops[op].m, s') else same
    case DeleteIfMatch(op) =>
      if op in s.ops && s.ops[op].InvalidateHeld? then DeleteRefines(s, op, s.ops[op], s') else same
    case InvalidateGet(op, key, id) => if op in s.ops then same else InvalidateGetRefines(s, op, key, id, s')
    case RenewGet(op, asked) => if op in s.ops then same else RenewGetRefines(s, op, asked, s')
    case RenewPutIfMatch(op, new_) =>
      if op in s.ops && s.ops[op].RenewHeld? then RenewPutRefines(s, op, s.ops[op], new_, s') else same
    case RenewLookup(op) =>
      same && (op in s.ops && s.ops[op].RenewLost? ==> Answers(s', op, AManifest(Fetch(s, s.ops[op].before.cacheKey))))
  }

  lemma ServeRefines(s: S3, r: Request)
    requires EtagsMeanBodies(s)
    ensures Refines(s, r)
  {
    match r
    case DeleteIfMatch(op) =>
      if op in s.ops && s.ops[op].InvalidateHeld? {
        assert OpOk(s, s.ops[op]);
        assert Repository(s.(objects := s.objects - {s.ops[op].key})) == Repository(s) - {s.ops[op].key};
      }
    case RenewPutIfMatch(op, new_) =>
      if op in s.ops && s.ops[op].RenewHeld? && new_.Some? {
        assert OpOk(s, s.ops[op]);
        PutIsUpdate(s, s.ops[op].before.cacheKey, new_.value);
      }
    case PutIfAbsent(_, m) => PutIsUpdate(s, m.cacheKey, m);
    case _ =>
  }

  lemma PutIsUpdate(s: S3, key: Key, m: Manifest)
    ensures Repository(Put(s, key, m)) == Repository(s)[key := m]
  {
  }

  /** Over every interleaving of commits, renewals and invalidations. */
  lemma EveryRequestRefines(rs: seq<Request>, r: Request)
    ensures Refines(ServeAll(rs), r)
  {
    EtagsAlwaysMeanBodies(rs);
    ServeRefines(ServeAll(rs), r);
  }

  // ---------------------------------------------------------------------------
  // The two answers that may differ
  // ---------------------------------------------------------------------------

  /** The store holds a manifest of this ID. */
  predicate Holds(repo: Repo, key: Key, id: string) {
    key in repo && repo[key].id == id
  }

  /** A refused delete leaves the repository alone, as the atomic invalidation does, exactly when
      the stored manifest no longer has the ID that was to be invalidated; otherwise the manifest
      read was replaced under its ID, and survives. */
  lemma RefusedDeleteExact(rs: seq<Request>, op: nat)
    requires var s := ServeAll(rs);
      op in s.ops && s.ops[op].InvalidateHeld? && Serve(s, DeleteIfMatch(op)).ops[op] == Answered(ABool(false))
    ensures var s := ServeAll(rs); var held, before := s.ops[op], Repository(s);
      && Repository(Serve(s, DeleteIfMatch(op))) == before
      && (InvalidateById(before, held.key, held.id) == (before, false) <==> !Holds(before, held.key, held.id))
      && (Holds(before, held.key, held.id) ==> s.objects[held.key].etag != held.etag)
  {
    EveryRequestRefines(rs, DeleteIfMatch(op));
    var s := ServeAll(rs);
    var held := s.ops[op];
    if Holds(Repository(s), held.key, held.id) { assert held.key !in Repository(s) - {held.key}; }
  }

  /** The lookup of a renewal that lost its put changes nothing, and answers as the atomic renewal
      exactly when the stored manifest is gone, has another ID or is already the one offered;
      otherwise it was put under its ID after the renewal read, and the atomic renewal would have
      replaced it. */
  lemma LostRenewalExact(rs: seq<Request>, op: nat)
    requires op in ServeAll(rs).ops && ServeAll(rs).ops[op].RenewLost?
    ensures var s := ServeAll(rs); var s' := Serve(s, RenewLookup(op));
      var lost, repo := s.ops[op], Repository(s); var key := lost.before.cacheKey;
      var atomic := RenewById(repo, lost.before, Some(lost.offered));
      && SameIdentity(lost.before, lost.offered) && Repository(s') == repo
      && (atomic.0 == repo && Answers(s', op, AManifest(atomic.1)) <==>
            !Holds(repo, key, lost.before.id) || repo[key] == lost.offered)
      && (key in repo ==> s.objects[key].etag != lost.etag)
  {
    EtagsAlwaysMeanBodies(rs);
    var s := ServeAll(rs);
    var lost, repo := s.ops[op], Repository(s);
    assert OpOk(s, lost);
    var key := lost.before.cacheKey;
    if Holds(repo, key, lost.before.id) && repo[key] == lost.offered { assert repo[key := lost.offered] == repo; }
  }

  /** Two renewals read a manifest and the first replaces it: the second loses and answers with the
      manifest of the first, where the atomic repository would have stored and answered its own. */
  lemma SecondRenewalLoses() returns (rs: seq<Request>, own: Manifest)
    ensures var s := ServeAll(rs); var s' := Serve(s, RenewLookup(2));
      && 2 in s.ops && s.ops[2].RenewLost? && s.ops[2].offered == own
      && RenewById(Repository(s), s.ops[2].before, Some(own)).1 == Some(own)
      && Answers(s', 2, AManifest(Some(own.(url := "v")))) && own.url == "w"
  {
    var m := Manifest("k", "id", "u", None, "c");
    own := m.(url := "w");
    var r1, r2, r3 := PutIfAbsent(0, m), RenewGet(1, m), RenewGet(2, m);
    var r4, r5 := RenewPutIfMatch(1, Some(m.(url := "v"))), RenewPutIfMatch(2, Some(own));
    var s1 := Serve(NO_OBJECTS, r1);
    assert s1 == S3(map["k" := Object(m, 0)], 1, map[0 := Answered(AManifest(Some(m)))]);
    var s3 := Serve(Serve(s1, r2), r3);
    assert s3 == s1.(ops := s1.ops[1 := RenewHeld(m, 0, m)][2 := RenewHeld(m, 0, m)]);
    var s4 := Serve(s3, r4);
    assert s4.objects == map["k" := Object(m.(url := "v"), 1)] && s4.ops[2] == RenewHeld(m, 0, m);
    var s5 := Serve(s4, r5);
    assert s5.ops[2] == RenewLost(m, 0, own) && s5.objects == s4.objects;
    ServeOneMore([], r1);
    ServeOneMore([] + [r1], r2);
    ServeOneMore([] + [r1] + [r2], r3);
    ServeOneMore([] + [r1] + [r2] + [r3], r4);
    ServeOneMore([] + [r1] + [r2] + [r3] + [r4], r5);
    rs := [] + [r1] + [r2] + [r3] + [r4] + [r5];
    assert Repository(s5) == map["k" := m.(url := "v")];
  }

  /** A manifest is stored, and an invalidation and a renewal of it have read it. */
  lemma BothHold(m: Manifest) returns (rs: seq<Request>)
    ensures var s := ServeAll(rs);
      && s.objects == map[m.cacheKey := Object(m, 0)] && s.nextEtag == 1 && s.ops.Keys == {0, 1, 2}
      && s.ops[1] == InvalidateHeld(m.cacheKey, m.id, 0, m) && s.ops[2] == RenewHeld(m, 0, m)
  {
    var r1, r2, r3 := PutIfAbsent(0, m), InvalidateGet(1, m.cacheKey, m.id), RenewGet(2, m);
    var s1 := Serve(NO_OBJECTS, r1);
    assert s1 == S3(map[m.cacheKey := Object(m, 0)], 1, map[0 := Answered(AManifest(Some(m)))]);
    var s2 := Serve(s1, r2);
    assert s2 == s1.(ops := s1.ops[1 := InvalidateHeld(m.cacheKey, m.id, 0, m)]);
    ServeOneMore([], r1);
    ServeOneMore([] + [r1], r2);
    ServeOneMore([] + [r1] + [r2], r3);
    rs := [] + [r1] + [r2] + [r3];
  }

  lemma RenewedUnderItsId(m: Manifest, after: Manifest) returns (rs: seq<Request>)
    requires SameIdentity(m, after) && after.id == m.id
    ensures var s := ServeAll(rs);
      && s.objects == map[m.cacheKey := Object(after, 1)] && 1 in s.ops &&
        s.ops[1] == InvalidateHeld(m.cacheKey, m.id, 0, m)
  {
    var held := BothHold(m);
    var r := RenewPutIfMatch(2, Some(after));
    ServeOneMore(held, r);
    rs := held + [r];
    assert Serve(ServeAll(held), r).objects == map[m.cacheKey := Object(after, 1)];
  }

  /** An invalidation reads a manifest, a renewal replaces it under its ID, and the delete is
      refused: the answer is that nothing was removed, while the atomic repository, holding a
      manifest of that very ID, would have removed it. */
  lemma RenewalDefeatsInvalidation() returns (rs: seq<Request>)
    ensures var s := ServeAll(rs); var s' := Serve(s, DeleteIfMatch(1));
      && 1 in s'.ops && s'.ops[1] == Answered(ABool(false)) && Repository(s') == Repository(s)
      && InvalidateById(Repository(s), "k", "id").1
  {
    var m := Manifest("k", "id", "u", None, "c");
    rs := RenewedUnderItsId(m, m.(url := "v"));
    assert Repository(ServeAll(rs)) == map["k" := m.(url := "v")];
  }

  /** A renewal keeps the identity of the stored manifest exactly when the manifest it read has the
      identity of the one it was asked to renew; the code compares their IDs only. */
  lemma RenewalKeepsIdentityExactly(rs: seq<Request>, op: nat, new_: Manifest)
    requires op in ServeAll(rs).ops && ServeAll(rs).ops[op].RenewHeld?
    requires Repository(Serve(ServeAll(rs), RenewPutIfMatch(op, Some(new_)))) != Repository(ServeAll(rs))
    ensures var s := ServeAll(rs); var held := s.ops[op]; var key := held.before.cacheKey;
      && key in Repository(s) && Repository(Serve(s, RenewPutIfMatch(op, Some(new_))))[key] == new_
      && (SameIdentity(Repository(s)[key], new_) <==> SameIdentity(held.read, held.before))
  {
    EveryRequestRefines(rs, RenewPutIfMatch(op, Some(new_)));
  }

  /** Two manifests with one ID but different content are enough to let a renewal change what is
      stored: renewing the one that is not stored replaces the one that is. */
  lemma SharedIdChangesContent() returns (rs: seq<Request>, r: Request, key: Key)
    ensures var s := ServeAll(rs);
      && key in Repository(s) && key in Repository(Serve(s, r)) &&
        !SameIdentity(Repository(s)[key], Repository(Serve(s, r))[key])
  {
    var first, second := Manifest("k", "id", "u", None, "first"), Manifest("k", "id", "u", None, "second");
    var r1, r2 := PutIfAbsent(0, second), RenewGet(1, first);
    rs := [] + [r1] + [r2];
    ServeOneMore([], r1);
    ServeOneMore([] + [r1], r2);
    var s1 := Serve(NO_OBJECTS, r1);
    assert s1.objects == map["k" := Object(second, 0)];
    var s2 := Serve(s1, r2);
    assert s2.ops[1] == RenewHeld(first, 0, second) && s2.objects == s1.objects;
    r, key := RenewPutIfMatch(1, Some(first.(url := "v"))), "k";
  }

  lemma ServeOneMore(rs: seq<Request>, r: Request)
    ensures ServeAll(rs + [r]) == Serve(ServeAll(rs), r)
  {
    assert (rs + [r])[..|rs|] == rs;
  }
}
