/** What eviction and rotation do to a user's sessions over whole runs, and which sessions
    revocation reaches. */
module SessionEviction {
  import opened Histories
  import opened SessionStore
  import opened SessionRuns

  predicate OwnsReadable(s: State, u: User, id: Id) {
    Readable(s, id) && s.store[id].session.user == u
  }

  /** Every session the user could still present is listed in the index. */
  ghost predicate AllIndexed(s: State, u: User) {
    forall id :: OwnsReadable(s, u, id) ==> id in IdSet(Index(s, u))
  }

  // ---------- Which ids eviction drops ----------

  function DroppedIds(c: Config, s: State, u: User): set<Id> {
    IdSet(Index(s, u)[..Excess(c, s, u)])
  }

  function KeptIds(c: Config, s: State, u: User): set<Id> {
    IdSet(Index(s, u)[Excess(c, s, u)..])
  }

  /** Creation evicts for its user; rotation evicts for the owner of the session it rotates. */
  function EvictedBy(c: Config, s: State, step: Step): set<Id> {
    match step
    case Create(u, _) => DroppedIds(c, s, u)
    case Rotate(prior, _, device) =>
      if Admitted(c, s, prior, device) then DroppedIds(c, s, s.store[prior].session.user) else {}
    case _ => {}
  }

  /** Every id a run has evicted from an index. */
  function EvictedIds(c: Config, run: History): set<Id> {
    match run
    case Start(_) => {}
    case Then(before, step) => EvictedIds(c, before) + EvictedBy(c, After(c, before), step)
  }

  lemma {:induction false} KeptOrDropped(z: seq<Member>, k: nat)
    requires Distinct(z) && k <= |z|
    ensures IdSet(z[k..]) == IdSet(z) - IdSet(z[..k])
  {
    assert z == z[..k] + z[k..];
  }

  lemma {:induction false} RemovedIds(z: seq<Member>, ids: set<Id>)
    ensures IdSet(Remove(z, ids)) == IdSet(z) - ids
  {
    RemoveMembers(z, ids);
  }

  lemma {:induction false} EvictedWereUsed(c: Config, s: State, step: Step, used: set<Id>)
    requires Invariant(c, s, used)
    ensures EvictedBy(c, s, step) <= used
  {
    forall u, m | m in Index(s, u) ensures m.id in used {
      assert Entry(s, used, u, m);
    }
  }

  // ---------- Creation and rotation, one step ----------

  lemma {:induction false} CreatedIndexIds(c: Config, s: State, u: User, id: Id, used: set<Id>)
    requires Invariant(c, s, used) && id !in used
    ensures IdSet(Index(Created(c, s, u, id).0, u)) == KeptIds(c, s, u) + {id}
    ensures |Index(Created(c, s, u, id).0, u)| == |Index(s, u)| - Excess(c, s, u) + 1
  {
    var z, m := Index(Evicted(c, s, u), u), Member(s.now, id);
    assert z == Index(s, u)[Excess(c, s, u)..];
    forall x | x in z ensures x.id != id {
      assert x in Index(s, u) && Entry(s, used, u, x);
    }
    RemoveNothing(z, {id});
    InsertMembers(z, m);
    assert m in Insert(z, m);
  }

  /** The state after rotating a readable session, in terms of the creation inside it. */
  lemma {:induction false} RotatedIndexIds(c: Config, s: State, prior: Id, newId: Id, device: Device, used: set<Id>)
    requires Invariant(c, s, used) && newId !in used && Admitted(c, s, prior, device)
    ensures var u, t := s.store[prior].session.user, Rotated(c, s, prior, newId, device).0;
            IdSet(Index(t, u)) == KeptIds(c, s, u) + {newId} - {prior} &&
            |Index(t, u)| == |Index(s, u)| - Excess(c, s, u) + 1 - (if prior in KeptIds(c, s, u) then 1 else 0) &&
            (forall v :: v != u ==> Index(t, v) == Index(s, v)) &&
            t.store == s.store[newId := Record(NewSession(c, s, u, newId))][prior := Grace(newId)]
  {
    var u := s.store[prior].session.user;
    var m := Created(c, s, u, newId).0;
    CreatedKeepsInvariant(c, s, u, newId, used);
    CreatedIndexIds(c, s, u, newId, used);
    RemovedIds(Index(m, u), {prior});
    assert WellShaped(c, Index(m, u));
    RemoveOne(Index(m, u), prior);
  }

  /** Creating a session leaves all of the user's sessions indexed exactly when every one that is
      still readable survives the eviction: eviction forgets sessions without ending them. */
  lemma {:induction false} CreateKeepsAllIndexed(c: Config, s: State, u: User, id: Id, used: set<Id>)
    requires Invariant(c, s, used) && id !in used
    ensures AllIndexed(Created(c, s, u, id).0, u) <==>
            forall x :: OwnsReadable(s, u, x) ==> x in KeptIds(c, s, u)
  {
    var t := Created(c, s, u, id).0;
    CreatedKeepsInvariant(c, s, u, id, used);
    CreatedIndexIds(c, s, u, id, used);
    forall x | x != id ensures OwnsReadable(t, u, x) <==> OwnsReadable(s, u, x) {}
    assert !OwnsReadable(s, u, id);
  }

  /** Rotation likewise, for the owner's other sessions: it creates before it removes, so at the
      limit it also evicts. */
  lemma {:induction false} RotateKeepsAllIndexed(
    c: Config, s: State, prior: Id, newId: Id, device: Device, used: set<Id>
  )
    requires Invariant(c, s, used) && newId !in used && Admitted(c, s, prior, device)
    ensures var u := s.store[prior].session.user;
            AllIndexed(Rotated(c, s, prior, newId, device).0, u) <==>
            forall x :: x != prior && OwnsReadable(s, u, x) ==> x in KeptIds(c, s, u)
  {
    var u, t := s.store[prior].session.user, Rotated(c, s, prior, newId, device).0;
    RotatedIndexIds(c, s, prior, newId, device, used);
    forall x | x != newId ensures OwnsReadable(t, u, x) <==> OwnsReadable(s, u, x) && x != prior {}
    assert !OwnsReadable(s, u, newId);
  }

  // ---------- Over whole runs ----------

  /** A readable session is in its owner's index exactly when its id was never evicted. */
  ghost predicate Tracked(s: State, evicted: set<Id>) {
    forall u, id :: OwnsReadable(s, u, id) ==> (id in IdSet(Index(s, u)) <==> id !in evicted)
  }

  lemma {:induction false} PrunedTracked(s: State, u: User, ids: set<Id>, evicted: set<Id>)
    requires Tracked(s, evicted)
    ensures Tracked(Pruned(s, u, ids), evicted)
  {
    RemovedIds(Index(s, u), ids);
    var t := Pruned(s, u, ids);
    forall v, x | OwnsReadable(t, v, x) ensures x in IdSet(Index(t, v)) <==> x !in evicted {
      assert OwnsReadable(s, v, x);
    }
  }

  lemma {:induction false} DeletedTracked(s: State, u: User, id: Id, evicted: set<Id>)
    requires Tracked(s, evicted)
    ensures Tracked(Deleted(s, u, id), evicted)
  {
    PrunedMore(s, u, {}, id);
    PrunedTracked(s, u, {} + {id}, evicted);
  }

  lemma {:induction false} CreatedTracked(c: Config, s: State, u: User, id: Id, used: set<Id>, evicted: set<Id>)
    requires Invariant(c, s, used) && id !in used && evicted <= used && Tracked(s, evicted)
    ensures Tracked(Created(c, s, u, id).0, evicted + DroppedIds(c, s, u))
  {
    var t := Created(c, s, u, id).0;
    CreatedKeepsInvariant(c, s, u, id, used);
    CreatedIndexIds(c, s, u, id, used);
    EvictedWereUsed(c, s, Create(u, id), used);
    assert WellShaped(c, Index(s, u));
    KeptOrDropped(Index(s, u), Excess(c, s, u));
    forall v, x | OwnsReadable(t, v, x)
      ensures x in IdSet(Index(t, v)) <==> x !in evicted + DroppedIds(c, s, u)
    {
      if x != id {
        assert OwnsReadable(s, v, x);
        if v != u { NotOnesOwn(c, s, used, u, v, x); }
      }
    }
  }

  /** A readable session of one user is in nobody else's index. */
  lemma {:induction false} NotOnesOwn(c: Config, s: State, used: set<Id>, u: User, v: User, x: Id)
    requires Invariant(c, s, used) && u != v && OwnsReadable(s, v, x)
    ensures x !in IdSet(Index(s, u)) && x !in DroppedIds(c, s, u)
  {
    forall m | m in Index(s, u) ensures m.id != x {
      assert Entry(s, used, u, m);
    }
  }

  lemma {:induction false} RotatedTracked(
    c: Config, s: State, prior: Id, newId: Id, device: Device, used: set<Id>, evicted: set<Id>
  )
    requires Invariant(c, s, used) && newId !in used && evicted <= used
    requires Tracked(s, evicted) && Admitted(c, s, prior, device)
    ensures Tracked(Rotated(c, s, prior, newId, device).0, evicted + DroppedIds(c, s, s.store[prior].session.user))
  {
    var u, t := s.store[prior].session.user, Rotated(c, s, prior, newId, device).0;
    RotatedIndexIds(c, s, prior, newId, device, used);
    EvictedWereUsed(c, s, Create(u, newId), used);
    assert WellShaped(c, Index(s, u));
    KeptOrDropped(Index(s, u), Excess(c, s, u));
    forall v, x | OwnsReadable(t, v, x)
      ensures x in IdSet(Index(t, v)) <==> x !in evicted + DroppedIds(c, s, u)
    {
      if x != newId {
        assert OwnsReadable(s, v, x);
        if v != u { NotOnesOwn(c, s, used, u, v, x); }
      }
    }
  }

  lemma {:induction false} GotTracked(c: Config, s: State, id: Id, device: Device, evicted: set<Id>)
    requires Tracked(s, evicted)
    ensures Tracked(Got(c, s, id, device).0, evicted)
  {
    if id in s.store && s.store[id].Record? {
      DeletedTracked(s, s.store[id].session.user, s.store[id].session.id, evicted);
    }
  }

  lemma {:induction false} TrackedStep(c: Config, s: State, step: Step, used: set<Id>, evicted: set<Id>)
    requires Invariant(c, s, used) && StepIds(step) !! used && evicted <= used && Tracked(s, evicted)
    ensures Tracked(Next(c, s, step), evicted + EvictedBy(c, s, step))
  {
    assert evicted + {} == evicted;
    match step {
      case Create(u, id) => CreatedTracked(c, s, u, id, used, evicted);
      case Rotate(prior, newId, device) =>
        GotTracked(c, s, prior, device, evicted);
        if Admitted(c, s, prior, device) { RotatedTracked(c, s, prior, newId, device, used, evicted); }
      case Get(id, device) => GotTracked(c, s, id, device, evicted);
      case Delete(u, id) => DeletedTracked(s, u, id, evicted);
      case List(u) => PrunedTracked(s, u, DeadIds(s, Index(s, u)), evicted);
      case Revoke(u, id) =>
        GotTracked(c, s, id, "", evicted);
        DeletedTracked(s, u, id, evicted);
        if Readable(s, id) { DeletedTracked(s, s.store[id].session.user, id, evicted); }
      case RevokeAll(u) => PrunedTracked(s, u, IdSet(Index(s, u)), evicted);
      case Wait(_) | Lapse(_) =>
        forall v, x | OwnsReadable(Next(c, s, step), v, x) ensures OwnsReadable(s, v, x) {}
    }
  }

  /** In every run, a session that can be presented is in its owner's index unless some creation or
      rotation of the run evicted its id. */
  lemma {:induction false} IndexedUnlessEvicted(c: Config, run: History)
    requires FreshIds(run)
    ensures Tracked(After(c, run), EvictedIds(c, run)) && EvictedIds(c, run) <= UsedIds(run)
  {
    match run {
      case Start(_) =>
      case Then(before, step) =>
        IndexedUnlessEvicted(c, before);
        InvariantHolds(c, before);
        EvictedWereUsed(c, After(c, before), step, UsedIds(before));
        TrackedStep(c, After(c, before), step, UsedIds(before), EvictedIds(c, before));
    }
  }

  // ---------- Revocation ----------

  /** RevokeAllUserSessions empties the user's index, makes every indexed id unreadable and leaves
      other users alone. What the user can still present afterwards is exactly what was readable
      before and had been evicted at some time; so all sessions end exactly when no evicted session
      of the user is still readable. */
  lemma {:induction false} RevokeAllExact(c: Config, run: History, u: User)
    requires FreshIds(run)
    ensures var s, t := After(c, run), AllRevoked(After(c, run), u);
            Index(t, u) == [] &&
            (forall m :: m in Index(s, u) ==> m.id !in t.store) &&
            (forall v :: v != u ==> Index(t, v) == Index(s, v)) &&
            (forall v, id :: v != u && OwnsReadable(s, v, id) ==> OwnsReadable(t, v, id)) &&
            (forall id :: OwnsReadable(t, u, id) <==> OwnsReadable(s, u, id) && id in EvictedIds(c, run))
  {
    InvariantHolds(c, run);
    IndexedUnlessEvicted(c, run);
    var s := After(c, run);
    var z, t := Index(s, u), AllRevoked(s, u);
    forall m | m in z ensures m.id in IdSet(z) && Entry(s, UsedIds(run), u, m) {}
    RemoveAll(z, IdSet(z));
    assert z != [] ==> z[0].id in IdSet(z);
    forall id ensures OwnsReadable(t, u, id) <==> OwnsReadable(s, u, id) && id !in IdSet(z) {}
  }

  /** No creation or rotation of the run found the index full. */
  predicate NeverFull(c: Config, run: History) {
    match run
    case Start(_) => true
    case Then(before, step) =>
      NeverFull(c, before) &&
      match step
      case Create(u, _) => Excess(c, After(c, before), u) == 0
      case Rotate(prior, _, device) =>
        var s := After(c, before);
        Admitted(c, s, prior, device) ==> Excess(c, s, s.store[prior].session.user) == 0
      case _ => true
  }

  lemma {:induction false} NoLimitNeverFull(c: Config, run: History)
    requires c.maxSessions <= 0
    ensures NeverFull(c, run)
  {
    if run.Then? { NoLimitNeverFull(c, run.before); }
  }

  lemma {:induction false} NeverFullNeverEvicts(c: Config, run: History)
    requires NeverFull(c, run)
    ensures EvictedIds(c, run) == {}
  {
    if run.Then? { NeverFullNeverEvicts(c, run.before); }
  }

  /** As long as the limit is never met, every session is indexed and revoking all ends them all;
      without a limit that is every run. */
  lemma {:induction false} RevokeAllEndsAll(c: Config, run: History, u: User)
    requires FreshIds(run) && (c.maxSessions <= 0 || NeverFull(c, run))
    ensures AllIndexed(After(c, run), u)
    ensures forall id :: !OwnsReadable(AllRevoked(After(c, run), u), u, id)
  {
    if c.maxSessions <= 0 { NoLimitNeverFull(c, run); }
    NeverFullNeverEvicts(c, run);
    IndexedUnlessEvicted(c, run);
    RevokeAllExact(c, run, u);
  }

  /** Two sessions under a limit of one: the evicted one can still be presented, and revoking all of
      the user's sessions does not end it. */
  lemma {:induction false} EvictedSessionOutlivesRevocation()
    ensures var c := Config(60, 1, false);
            var run := Then(Then(Then(Start(0), Create("u", 1)), Wait(1)), Create("u", 2));
            var s := After(c, run);
            FreshIds(run) && Readable(s, 1) && Readable(s, 2) && Index(s, "u") == [Member(1, 2)] &&
            OwnsReadable(AllRevoked(s, "u"), "u", 1)
  {
    var c := Config(60, 1, false);
    var r1 := Then(Start(0), Create("u", 1));
    var s1 := After(c, r1);
    assert Index(s1, "u") == [Member(0, 1)];
    var r2 := Then(r1, Wait(1));
    var s2 := After(c, r2);
    assert Evicted(c, s2, "u") == s2.(index := s2.index["u" := []]);
    var s := After(c, Then(r2, Create("u", 2)));
    assert Index(s, "u") == [Member(1, 2)];
    assert IdSet(Index(s, "u")) == {2};
  }

  /** Revoking one session removes its key, and its entry from the index of the named user or, when
      no user is named, of the one its record names, expired or not; other keys and indexes stay as
      they were. Without a user it does nothing at all when there is no record under the id, or when
      it panics: only then is the session still readable. */
  lemma {:induction false} RevokeIsExact(c: Config, run: History, u: User, id: Id)
    requires FreshIds(run)
    ensures var s := After(c, run); var t := Revoked(c, s, u, id);
            var recorded := id in s.store && s.store[id].Record?;
            var owner := if u == "" && recorded then s.store[id].session.user else u;
            (Readable(t, id) <==> RevokePanics(c, s, u, id)) &&
            if u != "" || (recorded && !RevokePanics(c, s, u, id)) then
              t.store == s.store - {id} && IdSet(Index(t, owner)) == IdSet(Index(s, owner)) - {id} &&
              forall v :: v != owner ==> Index(t, v) == Index(s, v)
            else t == s
  {
    InvariantHolds(c, run);
    var s := After(c, run);
    var owner := if u == "" && id in s.store && s.store[id].Record? then s.store[id].session.user else u;
    RemovedIds(Index(s, owner), {id});
  }

  /** The named user's ownership is not verified: naming any user ends the session whoever owns it.
      Everybody else's sessions survive exactly when the id is not one of theirs. */
  lemma {:induction false} RevokeIgnoresOwner(c: Config, run: History, u: User, id: Id)
    requires FreshIds(run) && u != ""
    ensures var s := After(c, run); var t := Revoked(c, s, u, id);
            (forall v :: !OwnsReadable(t, v, id)) &&
            ((forall v, x :: v != u && OwnsReadable(s, v, x) ==> OwnsReadable(t, v, x)) <==>
             forall v :: v != u ==> !OwnsReadable(s, v, id))
  {
    var s := After(c, run);
    var t := Revoked(c, s, u, id);
    forall v, x ensures OwnsReadable(t, v, x) <==> OwnsReadable(s, v, x) && x != id {}
  }

  // ---------- Rotation and lifetime ----------

  /** A successful rotation moves the session: the new id is readable for the same user and indexed,
      the old id is in no index of the user and not readable, then or ever after. The user's other
      entries stay, except those the creation inside evicts. */
  lemma {:induction false} RotationMovesSession(
    c: Config, run: History, prior: Id, newId: Id, device: Device, later: History
  )
    requires var rotated := Then(run, Rotate(prior, newId, device)); FreshIds(later) && Extends(rotated, later)
    requires Admitted(c, After(c, run), prior, device) && c.ttl >= 0
    ensures var s, t := After(c, run), After(c, Then(run, Rotate(prior, newId, device)));
            var u := s.store[prior].session.user;
            OwnsReadable(t, u, newId) && !Readable(t, prior) && !Readable(After(c, later), prior) &&
            IdSet(Index(t, u)) == KeptIds(c, s, u) + {newId} - {prior} && newId in IdSet(Index(t, u)) &&
            forall v :: v != u ==> Index(t, v) == Index(s, v)
  {
    var rotated := Then(run, Rotate(prior, newId, device));
    FreshBefore(rotated, later, StepIds);
    InvariantHolds(c, run);
    RotatedIndexIds(c, After(c, run), prior, newId, device, UsedIds(run));
    assert prior in UsedIds(run);
    UnreadableForever(c, rotated, later, prior);
  }

  /** On a full index rotation evicts the oldest entry besides the rotated one, so the index ends
      one short of the limit unless the rotated session was itself the oldest. */
  lemma {:induction false} RotationOnFullIndex(c: Config, run: History, prior: Id, newId: Id, device: Device)
    requires FreshIds(Then(run, Rotate(prior, newId, device))) && Admitted(c, After(c, run), prior, device)
    requires var s := After(c, run); var u := s.store[prior].session.user;
             c.maxSessions > 0 && |Index(s, u)| == c.maxSessions && prior in IdSet(Index(s, u))
    ensures var s, t := After(c, run), After(c, Then(run, Rotate(prior, newId, device)));
            var u := s.store[prior].session.user; var oldest := Index(s, u)[0].id;
            oldest !in IdSet(Index(t, u)) &&
            |Index(t, u)| == if prior == oldest then c.maxSessions else c.maxSessions - 1
  {
    InvariantHolds(c, run);
    var s := After(c, run);
    var u := s.store[prior].session.user;
    var z := Index(s, u);
    RotatedIndexIds(c, s, prior, newId, device, UsedIds(run));
    assert WellShaped(c, z);
    KeptOrDropped(z, 1);
    assert z[..1] == [z[0]] && IdSet(z[..1]) == {z[0].id};
    assert Entry(s, UsedIds(run), u, z[0]);
  }

  lemma {:induction false} LifetimeAfterCreate(c: Config, s: State, u: User, id: Id, ticks: nat, lapsed: set<Id>)
    requires id in s.store && s.store[id] == Record(Session(id, u, s.now, s.now + c.ttl, ""))
    requires id in IdSet(Index(s, u))
    ensures var t := Next(c, Next(c, s, Wait(ticks)), Lapse(lapsed));
            (OwnsReadable(t, u, id) <==> ticks <= c.ttl && id !in lapsed) && id in IdSet(Index(t, u))
  {
    var t := Next(c, Next(c, s, Wait(ticks)), Lapse(lapsed));
    assert Index(t, u) == Index(s, u);
  }

  /** A session's lifetime, when Redis drops its key no earlier than the TTL it was stored with:
      readable before that time, unreadable after it, and at the very instant readable exactly if
      the key is still there. */
  lemma {:induction false} CreatedLivesForTTL(c: Config, run: History, u: User, id: Id, ticks: nat, lapsed: set<Id>)
    requires FreshIds(Then(run, Create(u, id))) && (id in lapsed ==> ticks >= c.ttl)
    ensures var s := After(c, Then(Then(Then(run, Create(u, id)), Wait(ticks)), Lapse(lapsed)));
            (ticks < c.ttl ==> OwnsReadable(s, u, id)) && (ticks > c.ttl ==> !OwnsReadable(s, u, id)) &&
            (ticks == c.ttl ==> (OwnsReadable(s, u, id) <==> id !in lapsed)) && id in IdSet(Index(s, u))
  {
    InvariantHolds(c, run);
    var created := Created(c, After(c, run), u, id).0;
    CreatedKeepsInvariant(c, After(c, run), u, id, UsedIds(run));
    CreatedIndexIds(c, After(c, run), u, id, UsedIds(run));
    assert created.store[id] == Record(NewSession(c, After(c, run), u, id)) && created.now == After(c, run).now;
    LifetimeAfterCreate(c, created, u, id, ticks, lapsed);
    var r1 := Then(run, Create(u, id));
    assert After(c, r1) == created;
    assert After(c, Then(r1, Wait(ticks))) == Next(c, created, Wait(ticks));
  }
}
