/** What every sequential, failure-free run of the Redis session manager guarantees. */
module SessionRuns {
  import opened Histories
  import opened SessionStore

  /** The public operations, and time: the clock advances, and Redis may drop any session keys at
      any moment (a weaker promise than their TTL, so the results hold for every TTL and clock skew). */
  datatype Step =
    | Create(user: User, id: Id)
    | Get(id: Id, device: Device)
    | Delete(user: User, id: Id)
    | Rotate(prior: Id, newId: Id, device: Device)
    | List(user: User)
    | Revoke(user: User, id: Id)
    | RevokeAll(user: User)
    | Wait(ticks: nat)
    | Lapse(ids: set<Id>)

  function Next(c: Config, s: State, step: Step): State {
    match step
    case Create(u, id) => Created(c, s, u, id).0
    case Get(id, device) => Got(c, s, id, device).0
    case Delete(u, id) => Deleted(s, u, id)
    case Rotate(prior, newId, device) => Rotated(c, s, prior, newId, device).0
    case List(u) => Cleaned(s, u)
    case Revoke(u, id) => Revoked(c, s, u, id)
    case RevokeAll(u) => AllRevoked(s, u)
    case Wait(d) => s.(now := s.now + d)
    case Lapse(ids) => s.(store := s.store - ids)
  }

  /** A history starts with empty stores at some time. */
  type History = Run<int, Step>

  function After(c: Config, run: History): State {
    match run
    case Start(now) => State(map[], map[], now)
    case Then(before, step) => Next(c, After(c, before), step)
  }

  function StepIds(step: Step): set<Id> {
    match step
    case Create(_, id) => {id}
    case Rotate(_, newId, _) => {newId}
    case _ => {}
  }

  /** Every id the UUID generator has handed out. */
  function UsedIds(run: History): set<Id> {
    Used(run, StepIds)
  }

  /** The UUID generator never repeats itself. */
  predicate FreshIds(run: History) {
    Fresh(run, StepIds)
  }

  // ---------- The invariant ----------

  /** An indexed id has no stored record, or the record of that user's session. */
  ghost predicate Entry(s: State, used: set<Id>, u: User, m: Member) {
    m.id in used && m.score <= s.now &&
    (m.id in s.store ==> s.store[m.id].Record? && s.store[m.id].session.user == u)
  }

  ghost predicate StoreOk(s: State, used: set<Id>) {
    forall id :: id in s.store ==>
      id in used && (s.store[id].Record? ==> s.store[id].session.id == id && s.store[id].session.device == "")
  }

  ghost predicate IndexOk(s: State, used: set<Id>) {
    forall u, m :: m in Index(s, u) ==> Entry(s, used, u, m)
  }

  predicate WellShaped(c: Config, z: seq<Member>) {
    Sorted(z) && Distinct(z) && (c.maxSessions > 0 ==> |z| <= c.maxSessions)
  }

  ghost predicate ShapeOk(c: Config, s: State) {
    forall u :: WellShaped(c, Index(s, u))
  }

  ghost predicate Invariant(c: Config, s: State, used: set<Id>) {
    StoreOk(s, used) && IndexOk(s, used) && ShapeOk(c, s)
  }

  /** `t` is `s` with some keys and index entries gone, at the same time or later. */
  ghost predicate Shrinks(s: State, t: State) {
    s.now <= t.now &&
    (forall id :: id in t.store ==> id in s.store && t.store[id] == s.store[id]) &&
    (forall u, m :: m in Index(t, u) ==> m in Index(s, u)) &&
    (forall u :: |Index(t, u)| <= |Index(s, u)| && (Sorted(Index(s, u)) ==> Sorted(Index(t, u))) &&
                 (Distinct(Index(s, u)) ==> Distinct(Index(t, u))))
  }

  lemma {:induction false} ShrinkingKeepsInvariant(c: Config, s: State, t: State, used: set<Id>)
    requires Invariant(c, s, used) && Shrinks(s, t)
    ensures Invariant(c, t, used)
  {}

  lemma {:induction false} PrunedShrinks(s: State, u: User, ids: set<Id>)
    ensures Shrinks(s, Pruned(s, u, ids))
  {
    RemoveMembers(Index(s, u), ids);
    if Distinct(Index(s, u)) { RemoveKeepsDistinct(Index(s, u), ids); }
  }

  lemma {:induction false} DeletedShrinks(s: State, u: User, id: Id)
    ensures Shrinks(s, Deleted(s, u, id))
  {
    RemoveMembers(Index(s, u), {id});
    if Distinct(Index(s, u)) { RemoveKeepsDistinct(Index(s, u), {id}); }
  }

  lemma {:induction false} EvictedShrinks(c: Config, s: State, u: User)
    ensures Shrinks(s, Evicted(c, s, u))
  {}

  lemma {:induction false} GotKeepsInvariant(c: Config, s: State, id: Id, device: Device, used: set<Id>)
    requires Invariant(c, s, used)
    ensures Invariant(c, Got(c, s, id, device).0, used)
  {
    if id in s.store && s.store[id].Record? {
      var session := s.store[id].session;
      DeletedShrinks(s, session.user, session.id);
      ShrinkingKeepsInvariant(c, s, Deleted(s, session.user, session.id), used);
    }
  }

  lemma {:induction false} CreatedKeepsInvariant(c: Config, s: State, u: User, id: Id, used: set<Id>)
    requires Invariant(c, s, used) && id !in used
    ensures Invariant(c, Created(c, s, u, id).0, used + {id})
    ensures Created(c, s, u, id).1 == Found(NewSession(c, s, u, id))
  {
    var e, t := Evicted(c, s, u), Created(c, s, u, id).0;
    EvictedShrinks(c, s, u);
    ShrinkingKeepsInvariant(c, s, e, used);
    var z, m := Index(e, u), Member(s.now, id);
    assert forall x :: x in z ==> Entry(e, used, u, x);
    RemoveNothing(z, {id});
    InsertMembers(z, m);
    InsertSorted(z, m);
    assert Index(t, u) == Insert(z, m);
    forall v, x | x in Index(t, v) ensures Entry(t, used + {id}, v, x) {
      if v != u || x != m { assert x in Index(e, v) && Entry(e, used, v, x); }
    }
    forall v ensures WellShaped(c, Index(t, v)) {
      if v != u { assert Index(t, v) == Index(e, v); }
    }
  }

  /** The grace pointer and the removal of the old id, after the new session exists. */
  lemma {:induction false} HandoverKeepsInvariant(c: Config, s: State, u: User, prior: Id, newId: Id, used: set<Id>)
    requires Invariant(c, s, used) && prior in used
    requires prior in s.store ==> s.store[prior].Record? && s.store[prior].session.user == u
    requires forall v, m :: v != u && m in Index(s, v) ==> m.id != prior
    ensures Invariant(c, s.(store := s.store[prior := Grace(newId)],
                            index := s.index[u := Remove(Index(s, u), {prior})]), used)
  {
    var t := s.(store := s.store[prior := Grace(newId)], index := s.index[u := Remove(Index(s, u), {prior})]);
    RemoveMembers(Index(s, u), {prior});
    RemoveKeepsDistinct(Index(s, u), {prior});
    forall v, m | m in Index(t, v) ensures Entry(t, used, v, m) {
      assert m in Index(s, v) && Entry(s, used, v, m);
    }
    forall v ensures WellShaped(c, Index(t, v)) {
      assert WellShaped(c, Index(s, v));
    }
  }

  lemma {:induction false} RotatedKeepsInvariant(
    c: Config, s: State, prior: Id, newId: Id, device: Device, used: set<Id>
  )
    requires Invariant(c, s, used) && newId !in used
    ensures Invariant(c, Rotated(c, s, prior, newId, device).0, used + {newId})
    ensures Admitted(c, s, prior, device) ==>
              Rotated(c, s, prior, newId, device).1 == Found(NewSession(c, s, s.store[prior].session.user, newId))
  {
    GotKeepsInvariant(c, s, prior, device, used);
    match Got(c, s, prior, device) {
      case (s1, Failed(_)) => WiderUse(c, s1, used, {newId});
      case (s1, Found(session)) =>
        var u := session.user;
        CreatedKeepsInvariant(c, s, u, newId, used);
        var s2 := Created(c, s, u, newId).0;
        forall v, m | v != u && m in Index(s2, v) ensures m.id != prior {
          assert m in Index(s, v) && Entry(s, used, v, m);
        }
        HandoverKeepsInvariant(c, s2, u, prior, newId, used + {newId});
    }
  }

  lemma {:induction false} WiderUse(c: Config, s: State, used: set<Id>, more: set<Id>)
    requires Invariant(c, s, used)
    ensures Invariant(c, s, used + more)
  {}

  lemma {:induction false} InvariantStep(c: Config, s: State, step: Step, used: set<Id>)
    requires Invariant(c, s, used) && StepIds(step) !! used
    ensures Invariant(c, Next(c, s, step), used + StepIds(step))
  {
    assert used + {} == used;
    match step {
      case Create(u, id) => CreatedKeepsInvariant(c, s, u, id, used);
      case Get(id, device) => GotKeepsInvariant(c, s, id, device, used);
      case Delete(u, id) =>
        DeletedShrinks(s, u, id);
        ShrinkingKeepsInvariant(c, s, Deleted(s, u, id), used);
      case Rotate(prior, newId, device) => RotatedKeepsInvariant(c, s, prior, newId, device, used);
      case List(u) =>
        PrunedShrinks(s, u, DeadIds(s, Index(s, u)));
        ShrinkingKeepsInvariant(c, s, Cleaned(s, u), used);
      case Revoke(u, id) =>
        GotKeepsInvariant(c, s, id, "", used);
        var base := if u != "" then s else Got(c, s, id, "").0;
        var owner := if u == "" && Got(c, s, id, "").1.Found? then Got(c, s, id, "").1.session.user else u;
        DeletedShrinks(base, owner, id);
        ShrinkingKeepsInvariant(c, base, Deleted(base, owner, id), used);
      case RevokeAll(u) =>
        PrunedShrinks(s, u, IdSet(Index(s, u)));
        ShrinkingKeepsInvariant(c, s, AllRevoked(s, u), used);
      case Wait(d) => ShrinkingKeepsInvariant(c, s, s.(now := s.now + d), used);
      case Lapse(ids) => ShrinkingKeepsInvariant(c, s, s.(store := s.store - ids), used);
    }
  }

  /** Every state of every run: index entries never point at another user's session or at a grace
      pointer, each index is in Redis order, and none exceeds the configured maximum. */
  lemma {:induction false} InvariantHolds(c: Config, run: History)
    requires FreshIds(run)
    ensures Invariant(c, After(c, run), UsedIds(run))
  {
    if run.Then? {
      InvariantHolds(c, run.before);
      InvariantStep(c, After(c, run.before), run.step, UsedIds(run.before));
    }
  }

  // ---------- Listing ----------

  function Ids(z: seq<Member>): seq<Id> {
    seq(|z|, i requires 0 <= i < |z| => z[i].id)
  }

  function SessionIds(r: seq<Session>): seq<Id> {
    seq(|r|, i requires 0 <= i < |r| => r[i].id)
  }

  lemma {:induction false} SessionsMatchIndex(s: State, u: User, z: seq<Member>, dead: set<Id>)
    requires forall m :: m in z ==> (m.id in dead <==> Dead(s, m.id))
    requires forall m :: m in z && m.id in s.store ==>
               s.store[m.id].Record? && s.store[m.id].session.user == u && s.store[m.id].session.id == m.id
    ensures SessionIds(Sessions(s, z)) == Ids(Remove(z, dead))
    ensures forall x :: x in Sessions(s, z) ==>
              x.user == u && s.now <= x.expiresAt && s.store.Items >= {(x.id, Record(x))}
  {
    if z != [] {
      assert z[0] in z && forall m :: m in z[1..] ==> m in z;
      SessionsMatchIndex(s, u, z[1..], dead);
      var rest, kept := Sessions(s, z[1..]), Remove(z[1..], dead);
      if Readable(s, z[0].id) {
        var x := s.store[z[0].id].session;
        assert SessionIds([x] + rest) == [x.id] + SessionIds(rest);
        assert Ids([z[0]] + kept) == [z[0].id] + Ids(kept);
        assert (x.id, Record(x)) in s.store.Items;
      } else {
        assert [] + rest == rest;
      }
    }
  }

  /** In every reachable state, listing returns only that user's unexpired sessions, leaves the
      index equal to their ids in the same order, and touches no other user's index or record. */
  lemma {:induction false} ListingIsExact(c: Config, run: History, u: User)
    requires FreshIds(run)
    ensures var s := After(c, run); var r, t := Sessions(s, Index(s, u)), Cleaned(s, u);
            (forall x :: x in r ==> x.user == u && Readable(s, x.id) && s.store[x.id] == Record(x)) &&
            SessionIds(r) == Ids(Index(t, u)) &&
            (forall id :: Readable(s, id) <==> Readable(t, id)) &&
            (forall v :: v != u ==> Index(t, v) == Index(s, v)) &&
            (forall id :: id in s.store && s.store[id].Record? && s.store[id].session.user != u ==>
                            id in t.store && t.store[id] == s.store[id])
  {
    InvariantHolds(c, run);
    var s := After(c, run);
    var z := Index(s, u);
    forall m | m in z && m.id in s.store
      ensures s.store[m.id].Record? && s.store[m.id].session.user == u && s.store[m.id].session.id == m.id
    {
      assert Entry(s, UsedIds(run), u, m);
    }
    forall m | m in z ensures m.id in DeadIds(s, z) <==> Dead(s, m.id) {}
    SessionsMatchIndex(s, u, z, DeadIds(s, z));
    RemoveNothing(z, {});
    forall x | x in Sessions(s, z) ensures Readable(s, x.id) && s.store[x.id] == Record(x) {
      assert (x.id, Record(x)) in s.store.Items;
    }
  }

  /** A look-up finds exactly the readable sessions, under their own id, and makes no other id
      more or less readable; with device binding on, it finds nothing for any real device. */
  lemma {:induction false} GetIsExact(c: Config, run: History, id: Id, device: Device)
    requires FreshIds(run)
    ensures var s := After(c, run); var (t, r) := Got(c, s, id, device);
            (r.Found? <==> Readable(s, id) && (c.bindDevices ==> device == "")) &&
            (r.Found? ==> r.session.id == id && s.store[id] == Record(r.session) && t == s) &&
            (forall x :: Readable(t, x) <==> Readable(s, x))
  {
    InvariantHolds(c, run);
  }

  /** No operation stores the device a session was created or rotated from, so with binding on the
      very request that created a session is refused, and so is every rotation, in every run. */
  lemma {:induction false} DeviceBindingLocksOut(c: Config, run: History, id: Id, newId: Id, device: Device)
    requires FreshIds(run) && c.bindDevices && device != ""
    ensures Got(c, After(c, run), id, device).1.Failed? && Rotated(c, After(c, run), id, newId, device).1.Failed?
    ensures Readable(After(c, run), id) ==> Got(c, After(c, run), id, device) == (After(c, run), Failed(DeviceMismatch))
  {
    InvariantHolds(c, run);
  }

  // ---------- An unreadable id never comes back ----------

  lemma {:induction false} UnreadableStep(c: Config, s: State, step: Step, used: set<Id>, id: Id)
    requires Invariant(c, s, used) && StepIds(step) !! used && id in used && !Readable(s, id)
    ensures !Readable(Next(c, s, step), id)
  {}

  /** Whatever made an issued id unreadable (deletion, rotation, revocation, expiry or a lost key),
      no continuation of the run ever makes it readable again. */
  lemma {:induction false} UnreadableForever(c: Config, run: History, later: History, id: Id)
    requires FreshIds(later) && Extends(run, later) && id in UsedIds(run) && !Readable(After(c, run), id)
    ensures FreshIds(run) && !Readable(After(c, later), id)
  {
    if later != run {
      UnreadableForever(c, run, later.before, id);
      InvariantHolds(c, later.before);
      UsedGrows(run, later.before, StepIds);
      UnreadableStep(c, After(c, later.before), later.step, UsedIds(later.before), id);
    }
  }

  // ---------- Eviction keeps the newest ----------

  /** The ids created for a user, in order. */
  function CreatedIds(run: History, u: User): seq<Id> {
    match run
    case Start(_) => []
    case Then(before, step) =>
      CreatedIds(before, u) + if step.Create? && step.user == u then [step.id] else []
  }

  /** Only creations, time and lost keys; two creations for the same user never share a score. */
  ghost predicate OnlyCreates(c: Config, run: History) {
    match run
    case Start(_) => true
    case Then(before, step) =>
      OnlyCreates(c, before) && (step.Create? || step.Wait? || step.Lapse?) &&
      (step.Create? ==> forall m :: m in Index(After(c, before), step.user) ==> m.score < After(c, before).now)
  }

  function LastOf(ids: seq<Id>, max: int): seq<Id> {
    if max <= 0 || |ids| <= max then ids else ids[|ids| - max..]
  }

  lemma {:induction false} NewestAfterCreate(c: Config, s: State, u: User, id: Id, used: set<Id>, created: seq<Id>)
    requires Invariant(c, s, used) && id !in used
    requires forall m :: m in Index(s, u) ==> m.score < s.now
    requires Ids(Index(s, u)) == LastOf(created, c.maxSessions)
    ensures Ids(Index(Created(c, s, u, id).0, u)) == LastOf(created + [id], c.maxSessions)
  {
    CreateAppends(c, s, u, id, used);
    var z, k := Index(s, u), Excess(c, s, u);
    NewestStep(created, Ids(z), id, c.maxSessions, k);
    IdsOfRest(z, k, Member(s.now, id));
  }

  lemma {:induction false} IdsOfRest(z: seq<Member>, k: nat, m: Member)
    requires k <= |z|
    ensures Ids(z[k..] + [m]) == Ids(z)[k..] + [m.id]
  {}

  /** After any number of creations the index holds exactly the last `maxSessions` ids created for
      the user, oldest first (all of them when there is no limit). */
  lemma {:induction false} IndexIsNewest(c: Config, run: History, u: User)
    requires FreshIds(run) && OnlyCreates(c, run)
    ensures Ids(Index(After(c, run), u)) == LastOf(CreatedIds(run, u), c.maxSessions)
  {
    match run {
      case Start(_) =>
      case Then(before, step) =>
        IndexIsNewest(c, before, u);
        if step.Create? && step.user == u {
          InvariantHolds(c, before);
          NewestAfterCreate(c, After(c, before), u, step.id, UsedIds(before), CreatedIds(before, u));
        } else {
          assert CreatedIds(before, u) + [] == CreatedIds(before, u);
        }
    }
  }

  lemma {:induction false} CreateAppends(c: Config, s: State, u: User, id: Id, used: set<Id>)
    requires Invariant(c, s, used) && id !in used
    requires forall m :: m in Index(s, u) ==> m.score < s.now
    ensures Index(Created(c, s, u, id).0, u) == Index(s, u)[Excess(c, s, u)..] + [Member(s.now, id)]
  {
    CreatedKeepsInvariant(c, s, u, id, used);
    var z := Index(Evicted(c, s, u), u);
    assert z == Index(s, u)[Excess(c, s, u)..];
    forall m | m in z ensures m.id != id && m.score < s.now {
      assert m in Index(s, u) && Entry(s, used, u, m);
    }
    RemoveNothing(z, {id});
    InsertLast(z, Member(s.now, id));
  }

  lemma {:induction false} NewestStep(all: seq<Id>, kept: seq<Id>, id: Id, max: int, k: nat)
    requires kept == LastOf(all, max) && k <= |kept|
    requires k == if max <= 0 || |kept| < max then 0 else |kept| - max + 1
    ensures kept[k..] + [id] == LastOf(all + [id], max)
  {}

  /** What eviction drops is older than everything it keeps. */
  lemma {:induction false} EvictsOldest(c: Config, run: History, u: User, gone: Member, kept: Member)
    requires FreshIds(run)
    requires var s := After(c, run);
             gone in Index(s, u)[..Excess(c, s, u)] && kept in Index(s, u)[Excess(c, s, u)..]
    ensures Before(gone, kept)
  {
    InvariantHolds(c, run);
    var s := After(c, run);
    assert Sorted(Index(s, u));
    var i :| 0 <= i < Excess(c, s, u) && Index(s, u)[i] == gone;
    var j :| Excess(c, s, u) <= j < |Index(s, u)| && Index(s, u)[j] == kept;
  }
}
