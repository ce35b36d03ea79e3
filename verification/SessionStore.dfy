/** The Redis session manager of internal/storage/redis/session_manager.go: session keys, a sorted
    set of session ids per user, eviction, rotation, lazy clean-up and revocation. */
module SessionStore {
  /** Session ids are fixed-width strings; only their order as strings matters, so numbers stand
      for them. */
  type Id = nat
  type User = string

  /** The fingerprint of a request's device, a hash that is never empty; a session that was given
      none has the empty one. */
  type Device = string

  datatype Session = Session(id: Id, user: User, createdAt: int, expiresAt: int, device: Device)

  /** A session key holds a marshalled session or, after rotation, the bare id of the successor. */
  datatype Stored = Record(session: Session) | Grace(successor: Id)

  datatype Member = Member(score: int, id: Id)

  datatype Config = Config(ttl: int, maxSessions: int, bindDevices: bool)

  /** Redis and the clock. A user without a sorted set has an empty one. */
  datatype State = State(store: map<Id, Stored>, index: map<User, seq<Member>>, now: int)

  function Index(s: State, u: User): seq<Member> {
    if u in s.index then s.index[u] else []
  }

  // ---------- Sorted sets ----------

  /** Redis orders by score, then by member. */
  predicate Before(a: Member, b: Member) {
    a.score < b.score || (a.score == b.score && a.id < b.id)
  }

  predicate Sorted(z: seq<Member>) {
    forall i, j :: 0 <= i < j < |z| ==> Before(z[i], z[j])
  }

  /** A sorted set holds each id once. */
  predicate Distinct(z: seq<Member>) {
    forall i, j :: 0 <= i < j < |z| ==> z[i].id != z[j].id
  }

  function Remove(z: seq<Member>, ids: set<Id>): seq<Member> {
    if z == [] then []
    else if z[0].id in ids then Remove(z[1..], ids)
    else [z[0]] + Remove(z[1..], ids)
  }

  function Insert(z: seq<Member>, m: Member): seq<Member> {
    if z == [] then [m]
    else if Before(m, z[0]) then [m] + z
    else [z[0]] + Insert(z[1..], m)
  }

  function ZAdd(z: seq<Member>, m: Member): seq<Member> {
    Insert(Remove(z, {m.id}), m)
  }

  function IdSet(z: seq<Member>): set<Id> {
    set m | m in z :: m.id
  }

  lemma {:induction false} RemoveMembers(z: seq<Member>, ids: set<Id>)
    ensures forall m :: m in Remove(z, ids) <==> m in z && m.id !in ids
    ensures |Remove(z, ids)| <= |z|
    ensures Sorted(z) ==> Sorted(Remove(z, ids))
  {
    if z != [] {
      RemoveMembers(z[1..], ids);
      assert z == [z[0]] + z[1..];
    }
  }

  lemma {:induction false} RemoveKeepsDistinct(z: seq<Member>, ids: set<Id>)
    requires Distinct(z)
    ensures Distinct(Remove(z, ids))
  {
    if z != [] {
      RemoveKeepsDistinct(z[1..], ids);
      RemoveMembers(z[1..], ids);
      var r := Remove(z[1..], ids);
      forall j | 0 <= j < |r| ensures r[j].id != z[0].id { assert r[j] in r; }
    }
  }

  /** Removing one id shortens the set by one if it was there. */
  lemma {:induction false} RemoveOne(z: seq<Member>, id: Id)
    requires Distinct(z)
    ensures |Remove(z, {id})| == |z| - if id in IdSet(z) then 1 else 0
  {
    if z != [] {
      assert z == [z[0]] + z[1..];
      if z[0].id == id {
        forall m | m in z[1..] ensures m.id !in {id} {}
        RemoveNothing(z[1..], {id});
        assert z[0] in z;
      } else {
        RemoveOne(z[1..], id);
        assert id in IdSet(z) <==> id in IdSet(z[1..]);
      }
    }
  }

  lemma {:induction false} RemoveNothing(z: seq<Member>, ids: set<Id>)
    requires forall m :: m in z ==> m.id !in ids
    ensures Remove(z, ids) == z
  {
    if z != [] {
      RemoveNothing(z[1..], ids);
    }
  }

  lemma {:induction false} RemoveAll(z: seq<Member>, ids: set<Id>)
    requires forall m :: m in z ==> m.id in ids
    ensures Remove(z, ids) == []
  {
    if z != [] {
      assert z[0] in z;
      RemoveAll(z[1..], ids);
    }
  }

  lemma {:induction false} RemoveTwice(z: seq<Member>, a: set<Id>, b: set<Id>)
    ensures Remove(Remove(z, a), b) == Remove(z, a + b)
  {
    if z != [] {
      RemoveTwice(z[1..], a, b);
      if z[0].id !in a {
        var r := Remove(z, a);
        assert r[0] == z[0] && r[1..] == Remove(z[1..], a);
      }
    }
  }

  lemma {:induction false} InsertMembers(z: seq<Member>, m: Member)
    ensures forall x :: x in Insert(z, m) <==> x == m || x in z
    ensures |Insert(z, m)| == |z| + 1
  {
    if z != [] {
      assert z == [z[0]] + z[1..];
      InsertMembers(z[1..], m);
    }
  }

  lemma {:induction false} InsertSorted(z: seq<Member>, m: Member)
    requires Sorted(z) && forall x :: x in z ==> x.id != m.id
    ensures Sorted(Insert(z, m))
    ensures Distinct(z) ==> Distinct(Insert(z, m))
  {
    if z != [] {
      assert z == [z[0]] + z[1..];
      if Before(m, z[0]) {
        assert forall i :: 0 < i < |z| ==> Before(z[0], z[i]);
      } else {
        InsertSorted(z[1..], m);
        InsertMembers(z[1..], m);
        var r := Insert(z[1..], m);
        assert z[0] in z && Before(z[0], m);
        forall i | 0 <= i < |r| ensures Before(z[0], r[i]) && (Distinct(z) ==> r[i].id != z[0].id) { assert r[i] in r; }
      }
    }
  }

  /** A member with the highest score goes last. */
  lemma {:induction false} InsertLast(z: seq<Member>, m: Member)
    requires forall x :: x in z ==> x.score < m.score
    ensures Insert(z, m) == z + [m]
  {
    if z != [] {
      assert z[0] in z;
      InsertLast(z[1..], m);
      assert z == [z[0]] + z[1..];
    }
  }

  // ---------- The operations, on values ----------

  datatype Error = NotFound | Unreadable | Expired | DeviceMismatch | AlreadyExists

  datatype Result = Found(session: Session) | Failed(error: Error)

  function Deleted(s: State, u: User, id: Id): State {
    s.(store := s.store - {id}, index := s.index[u := Remove(Index(s, u), {id})])
  }

  /** How many of the oldest ids eviction drops from the index. */
  function Excess(c: Config, s: State, u: User): nat {
    var count := |Index(s, u)|;
    if c.maxSessions <= 0 || count < c.maxSessions then 0 else count - c.maxSessions + 1
  }

  /** Eviction touches the index only; the session keys stay. */
  function Evicted(c: Config, s: State, u: User): State {
    if Excess(c, s, u) == 0 then s else s.(index := s.index[u := Index(s, u)[Excess(c, s, u)..]])
  }

  /** A new session is stored without its device. */
  function NewSession(c: Config, s: State, u: User, id: Id): Session {
    Session(id, u, s.now, s.now + c.ttl, "")
  }

  function Created(c: Config, s: State, u: User, id: Id): (State, Result) {
    var e := Evicted(c, s, u);
    if id in e.store then (e, Failed(AlreadyExists))
    else
      (e.(store := e.store[id := Record(NewSession(c, s, u, id))],
          index := e.index[u := ZAdd(Index(e, u), Member(s.now, id))]),
       Found(NewSession(c, s, u, id)))
  }

  function Got(c: Config, s: State, id: Id, device: Device): (State, Result) {
    if id !in s.store then (s, Failed(NotFound))
    else match s.store[id]
      case Grace(_) => (s, Failed(Unreadable))
      case Record(session) =>
        if s.now > session.expiresAt then (Deleted(s, session.user, session.id), Failed(Expired))
        else if c.bindDevices && session.device != device then (s, Failed(DeviceMismatch))
        else (s, Found(session))
  }

  /** The caller gets the old session's device on the new session; the stored record does not. */
  function Rotated(c: Config, s: State, prior: Id, newId: Id, device: Device): (State, Result) {
    match Got(c, s, prior, device)
    case (s1, Failed(e)) => (s1, Failed(e))
    case (s1, Found(session)) =>
      match Created(c, s1, session.user, newId)
      case (s2, Failed(e)) => (s2, Failed(e))
      case (s2, Found(next)) =>
        (s2.(store := s2.store[prior := Grace(next.id)],
             index := s2.index[session.user := Remove(Index(s2, session.user), {prior})]),
         Found(next.(device := session.device)))
  }

  /** The key holds nothing, or a session past its expiry: clean-up removes such ids. */
  predicate Dead(s: State, id: Id) {
    id in s.store ==> s.store[id].Record? && s.now > s.store[id].session.expiresAt
  }

  function DeadIds(s: State, z: seq<Member>): set<Id> {
    set m | m in z && Dead(s, m.id) :: m.id
  }

  /** The key holds an unexpired session. */
  predicate Readable(s: State, id: Id) {
    id in s.store && s.store[id].Record? && s.now <= s.store[id].session.expiresAt
  }

  /** A look-up from this device would find the session. */
  predicate Admitted(c: Config, s: State, id: Id, device: Device) {
    Readable(s, id) && (c.bindDevices ==> s.store[id].session.device == device)
  }

  function Sessions(s: State, z: seq<Member>): seq<Session> {
    if z == [] then []
    else (if Readable(s, z[0].id) then [s.store[z[0].id].session] else []) + Sessions(s, z[1..])
  }

  lemma {:induction false} SessionsConcat(s: State, a: seq<Member>, b: seq<Member>)
    ensures Sessions(s, a + b) == Sessions(s, a) + Sessions(s, b)
  {
    if a == [] {
      assert a + b == b;
    } else {
      SessionsConcat(s, a[1..], b);
      assert (a + b)[1..] == a[1..] + b;
    }
  }

  /** What one iteration of the listing loop adds. */
  lemma {:induction false} ListingStep(s: State, z: seq<Member>, i: nat)
    requires i < |z|
    ensures DeadIds(s, z[..i + 1]) == DeadIds(s, z[..i]) + if Dead(s, z[i].id) then {z[i].id} else {}
    ensures Sessions(s, z[..i + 1]) ==
            Sessions(s, z[..i]) + if Readable(s, z[i].id) then [s.store[z[i].id].session] else []
  {
    assert z[..i + 1] == z[..i] + [z[i]];
    SessionsConcat(s, z[..i], [z[i]]);
  }

  /** The ids removed from the store and from the user's index. */
  function Pruned(s: State, u: User, ids: set<Id>): State {
    if ids == {} then s else s.(store := s.store - ids, index := s.index[u := Remove(Index(s, u), ids)])
  }

  lemma {:induction false} PrunedMore(s: State, u: User, ids: set<Id>, id: Id)
    ensures Deleted(Pruned(s, u, ids), u, id) == Pruned(s, u, ids + {id})
  {
    RemoveTwice(Index(s, u), ids, {id});
    assert ids == {} ==> ids + {id} == {id};
    var d, p := Deleted(Pruned(s, u, ids), u, id), Pruned(s, u, ids + {id});
    assert d.store == p.store;
    assert d.index == p.index;
  }

  /** The state after listing a user's sessions: dead ids leave the index and the store. */
  function Cleaned(s: State, u: User): State {
    Pruned(s, u, DeadIds(s, Index(s, u)))
  }

  /** Without a user the session is looked up with no request at hand, and device binding then
      dereferences it: the call panics without having changed anything. */
  predicate RevokePanics(c: Config, s: State, u: User, id: Id) {
    u == "" && c.bindDevices && Readable(s, id)
  }

  function Revoked(c: Config, s: State, u: User, id: Id): State {
    if u != "" then Deleted(s, u, id)
    else if RevokePanics(c, s, u, id) then s
    else match Got(c, s, id, "")
      case (s1, Failed(_)) => s1
      case (s1, Found(session)) => Deleted(s1, session.user, id)
  }

  function AllRevoked(s: State, u: User): State {
    Pruned(s, u, IdSet(Index(s, u)))
  }

  // ---------- The manager ----------

  class SessionManager {
    const config: Config
    var store: map<Id, Stored>
    var index: map<User, seq<Member>>
    var now: int

    function View(): State
      reads this
    {
      State(store, index, now)
    }

    constructor (config: Config, now: int)
      ensures this.config == config && View() == State(map[], map[], now)
    {
      this.config, this.now := config, now;
      store, index := map[], map[];
    }

    method DeleteSession(userID: User, sessionID: Id)
      modifies this`store, this`index
      ensures View() == Deleted(old(View()), userID, sessionID)
    {
      store := store - {sessionID};
      index := index[userID := Remove(Index(View(), userID), {sessionID})];
    }

    method EnforceMaxSessions(userID: User)
      requires config.maxSessions > 0
      modifies this`index
      ensures View() == Evicted(config, old(View()), userID)
    {
      var count := |Index(View(), userID)|;
      if count < config.maxSessions {
        return;
      }
      var numToEvict := count - config.maxSessions + 1;
      index := index[userID := Index(View(), userID)[numToEvict..]];
    }

    method CreateSession(userID: User, sessionID: Id) returns (r: Result)
      modifies this`store, this`index
      ensures (View(), r) == Created(config, old(View()), userID, sessionID)
    {
      if config.maxSessions > 0 {
        EnforceMaxSessions(userID);
      }
      var session := Session(sessionID, userID, now, now + config.ttl, "");
      if sessionID in store {
        return Failed(AlreadyExists);
      }
      store := store[sessionID := Record(session)];
      index := index[userID := ZAdd(Index(View(), userID), Member(now, sessionID))];
      r := Found(session);
    }

    method GetSession(sessionID: Id, device: Device) returns (r: Result)
      modifies this`store, this`index
      ensures (View(), r) == Got(config, old(View()), sessionID, device)
    {
      if sessionID !in store {
        return Failed(NotFound);
      }
      match store[sessionID] {
        case Grace(_) => r := Failed(Unreadable);
        case Record(session) =>
          if now > session.expiresAt {
            DeleteSession(session.user, session.id);
            return Failed(Expired);
          }
          if config.bindDevices && session.device != device {
            return Failed(DeviceMismatch);
          }
          r := Found(session);
      }
    }

    method RotateSession(oldSessionID: Id, newID: Id, device: Device) returns (r: Result)
      modifies this`store, this`index
      ensures (View(), r) == Rotated(config, old(View()), oldSessionID, newID, device)
    {
      var got := GetSession(oldSessionID, device);
      if got.Failed? {
        return got;
      }
      r := CreateSession(got.session.user, newID);
      if r.Failed? {
        return;
      }
      r := Found(r.session.(device := got.session.device));
      store := store[oldSessionID := Grace(r.session.id)];
      index := index[got.session.user := Remove(Index(View(), got.session.user), {oldSessionID})];
    }

    method GetUserSessions(userID: User) returns (sessions: seq<Session>)
      modifies this`store, this`index
      ensures View() == Cleaned(old(View()), userID)
      ensures sessions == Sessions(old(View()), Index(old(View()), userID))
    {
      var z := Index(View(), userID);
      if z == [] {
        return [];
      }
      ghost var s := View();
      var snapshot, current := store, now; // the MGet answer
      sessions := [];
      ghost var gone: set<Id> := {};
      var i := 0;
      while i < |z|
        invariant 0 <= i <= |z|
        invariant gone == DeadIds(s, z[..i]) && View() == Pruned(s, userID, gone)
        invariant sessions == Sessions(s, z[..i])
      {
        var id := z[i].id;
        ListingStep(s, z, i);
        if id !in snapshot || (snapshot[id].Record? && current > snapshot[id].session.expiresAt) {
          PrunedMore(s, userID, gone, id);
          DeleteSession(userID, id);
          gone := gone + {id};
        } else if snapshot[id].Record? {
          sessions := sessions + [snapshot[id].session];
        }
        i := i + 1;
      }
      assert z[..i] == z;
    }

    method RevokeSession(userID: User, sessionID: Id)
      requires !RevokePanics(config, View(), userID, sessionID)
      modifies this`store, this`index
      ensures View() == Revoked(config, old(View()), userID, sessionID)
    {
      if userID != "" {
        DeleteSession(userID, sessionID);
        return;
      }
      var got := GetSession(sessionID, "");
      if got.Failed? {
        return;
      }
      DeleteSession(got.session.user, sessionID);
    }

    method RevokeAllUserSessions(userID: User)
      modifies this`store, this`index
      ensures View() == AllRevoked(old(View()), userID)
    {
      var z := Index(View(), userID);
      ghost var s := View();
      for i := 0 to |z|
        invariant View() == Pruned(s, userID, IdSet(z[..i]))
      {
        PrunedMore(s, userID, IdSet(z[..i]), z[i].id);
        assert z[..i + 1] == z[..i] + [z[i]];
        assert IdSet(z[..i + 1]) == IdSet(z[..i]) + {z[i].id};
        DeleteSession(userID, z[i].id);
      }
      assert z[..|z|] == z;
    }
  }
}
