/** The replies of the Redis session manager, and creation on any index. */
module SessionReplies {
  import opened Histories
  import opened SessionStore
  import opened SessionRuns
  import opened SessionEviction

  /** A look-up's answer in any run: why it refuses, and that only an expired session is cleaned up,
      from its own key and its owner's index. */
  lemma {:induction false} GetReplies(c: Config, run: History, id: Id, device: Device)
    requires FreshIds(run)
    ensures var s := After(c, run); var (t, r) := Got(c, s, id, device);
            if id !in s.store then t == s && r == Failed(NotFound)
            else
              match s.store[id]
              case Grace(_) => t == s && r == Failed(Unreadable)
              case Record(session) =>
                if s.now > session.expiresAt then
                  r == Failed(Expired) && t.store == s.store - {id} && t.now == s.now &&
                  IdSet(Index(t, session.user)) == IdSet(Index(s, session.user)) - {id} &&
                  forall v :: v != session.user ==> Index(t, v) == Index(s, v)
                else t == s && r == if c.bindDevices && device != "" then Failed(DeviceMismatch) else Found(session)
  {
    InvariantHolds(c, run);
    var s := After(c, run);
    if id in s.store && s.store[id].Record? { RemovedIds(Index(s, s.store[id].session.user), {id}); }
  }

  /** A rotation is refused exactly like a look-up of the old id, with the same effect; otherwise it
      answers with a session of the owner that lives from now for the whole TTL and, in the answer
      only, has the old one's device. */
  lemma {:induction false} RotateReplies(c: Config, run: History, prior: Id, newId: Id, device: Device)
    requires FreshIds(run) && newId !in UsedIds(run)
    ensures var s := After(c, run); var (t, r) := Rotated(c, s, prior, newId, device);
            if !Admitted(c, s, prior, device) then (t, r) == Got(c, s, prior, device) && r.Failed?
            else
              var old' := s.store[prior].session;
              r == Found(Session(newId, old'.user, s.now, s.now + c.ttl, old'.device)) &&
              t.store == s.store[newId := Record(Session(newId, old'.user, s.now, s.now + c.ttl, ""))]
                                [prior := Grace(newId)]
  {
    InvariantHolds(c, run);
    if Admitted(c, After(c, run), prior, device) {
      RotatedKeepsInvariant(c, After(c, run), prior, newId, device, UsedIds(run));
      RotatedIndexIds(c, After(c, run), prior, newId, device, UsedIds(run));
    }
  }

  /** The same in any state, whatever devices its records carry. */
  lemma {:induction false} RotatedDevice(c: Config, s: State, prior: Id, newId: Id, device: Device)
    requires Admitted(c, s, prior, device) && newId !in s.store
    ensures var r := Rotated(c, s, prior, newId, device);
            r.1.Found? && r.1.session.device == s.store[prior].session.device &&
            r.0.store[newId] == Record(r.1.session.(device := ""))
  {}

  /** Creation in any state: an id that is taken is refused and its key kept, after the eviction has
      happened all the same; otherwise the session is stored from now until the TTL, without a
      device, and indexed under the current time. */
  lemma {:induction false} CreateReplies(c: Config, s: State, u: User, id: Id)
    ensures var (t, r) := Created(c, s, u, id);
            (forall v :: v != u ==> Index(t, v) == Index(s, v)) &&
            if id in s.store then
              r == Failed(AlreadyExists) && t.store == s.store && Index(t, u) == Index(s, u)[Excess(c, s, u)..]
            else
              r == Found(Session(id, u, s.now, s.now + c.ttl, "")) && t.store == s.store[id := Record(r.session)] &&
              Member(s.now, id) in Index(t, u)
  {
    var e := Evicted(c, s, u);
    InsertMembers(Remove(Index(e, u), {id}), Member(s.now, id));
  }

  /** However many sessions the index held, with a limit it holds at most that many afterwards, and
      eviction keeps as many of the newest as fit beside the new one. */
  lemma {:induction false} CreateRestoresLimit(c: Config, s: State, u: User, id: Id)
    requires c.maxSessions > 0 && Distinct(Index(s, u)) && id !in IdSet(Index(s, u)) && id !in s.store
    ensures var n, z := |Index(s, u)|, Index(Created(c, s, u, id).0, u);
            |z| == (if n < c.maxSessions then n + 1 else c.maxSessions) &&
            forall i :: 0 <= i < n && n - i < c.maxSessions ==> Index(s, u)[i] in z
  {
    var e := Evicted(c, s, u);
    var z := Index(s, u);
    forall m | m in Index(e, u) ensures m.id !in {id} {
      assert m in z;
    }
    RemoveNothing(Index(e, u), {id});
    InsertMembers(Index(e, u), Member(s.now, id));
    forall i | 0 <= i < |z| && |z| - i < c.maxSessions ensures z[i] in Index(e, u) {
      var k := Excess(c, s, u);
      assert z[i] == z[k..][i - k];
    }
  }

  /** After a listing only readable ids are left in the user's index. */
  lemma {:induction false} ListedAreReadable(c: Config, run: History, u: User)
    requires FreshIds(run)
    ensures var t := After(c, Then(run, List(u))); forall m :: m in Index(t, u) ==> Readable(t, m.id)
  {
    InvariantHolds(c, run);
    var s := After(c, run);
    var z, dead := Index(s, u), DeadIds(s, Index(s, u));
    RemoveMembers(z, dead);
    RemoveNothing(z, {});
    forall m | m in Index(Cleaned(s, u), u) ensures Readable(Cleaned(s, u), m.id) {
      assert m in z && m.id !in dead;
      assert Entry(s, UsedIds(run), u, m);
    }
  }

  /** After revoking all of them no session of the user is indexed. */
  lemma {:induction false} NoneIndexedAfterRevokeAll(c: Config, run: History, u: User)
    requires FreshIds(run)
    ensures Index(After(c, Then(run, RevokeAll(u))), u) == []
  {
    RevokeAllExact(c, run, u);
  }

  /** Deletion, revocation by a named user, and looking up an expired session leave no key. */
  lemma {:induction false} EndedLeavesNoKey(c: Config, run: History, u: User, id: Id, device: Device)
    requires FreshIds(run)
    ensures id !in After(c, Then(run, Delete(u, id))).store
    ensures u != "" ==> id !in After(c, Then(run, Revoke(u, id))).store
    ensures var s := After(c, run);
            id in s.store && s.store[id].Record? && s.now > s.store[id].session.expiresAt ==>
              id !in After(c, Then(run, Get(id, device))).store
  {
    InvariantHolds(c, run);
  }
}
