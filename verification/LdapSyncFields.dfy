/** What a full directory sync does to each field of each user, and what its counters mean. */
module LdapSyncFields {
  import opened Options
  import opened LdapSync
  import opened LdapSyncConvergence
  import opened LdapSyncResult

  // ---------- Fields ----------

  /** `after` is the status that the rules give a user with these attributes: that of the first rule
      that applies, or the one it had. */
  ghost predicate StatusByRules(rules: seq<Rule>, u: User, before: string, after: string) {
    if forall j :: 0 <= j < |rules| ==> !Applies(rules[j], u) then after == before
    else exists j :: 0 <= j < |rules| && FirstApplies(rules, u, j) && after == rules[j].targetStatus
  }

  predicate FirstApplies(rules: seq<Rule>, u: User, j: int)
    requires 0 <= j < |rules|
  {
    Applies(rules[j], u) && forall m :: 0 <= m < j ==> !Applies(rules[m], u)
  }

  lemma {:induction false} FirstApplicable(rules: seq<Rule>, u: User, n: nat) returns (i: nat)
    requires n <= |rules| && forall j :: 0 <= j < n ==> !Applies(rules[j], u)
    ensures i <= |rules| && forall j :: 0 <= j < i ==> !Applies(rules[j], u)
    ensures i < |rules| ==> Applies(rules[i], u)
    decreases |rules| - n
  {
    i := n;
    if n < |rules| && !Applies(rules[n], u) { i := FirstApplicable(rules, u, n + 1); }
  }

  lemma {:induction false} RuledFields(rules: seq<Rule>, u: User)
    ensures var r := Ruled(rules, u);
            r.username == u.username && r.email == u.email && r.phone == u.phone && r.attributes == u.attributes &&
            StatusByRules(rules, u, u.status, r.status)
  {
    var i := FirstApplicable(rules, u, 0);
    FirstRuleWins(rules, u, i);
    if i < |rules| { assert FirstApplies(rules, u, i); }
  }

  lemma {:induction false} SameAttributes(rules: seq<Rule>, u: User, v: User, before: string, after: string)
    requires u.attributes == v.attributes && StatusByRules(rules, u, before, after)
    ensures StatusByRules(rules, v, before, after)
  {
    if j :| 0 <= j < |rules| && FirstApplies(rules, u, j) && after == rules[j].targetStatus {
      assert FirstApplies(rules, v, j);
    }
  }

  /** `r` is the local user `l` brought up to date from the directory's user `u`. */
  ghost predicate TakenOver(c: Config, l: User, u: User, r: User) {
    r.username == l.username && r.email == u.email && r.phone == u.phone && r.attributes == u.attributes &&
    StatusByRules(c.rules, u, l.status, r.status)
  }

  lemma {:induction false} MergedFields(c: Config, l: User, u: User)
    ensures TakenOver(c, l, u, Merged(c, l, u))
  {
    var m := l.(email := u.email, phone := u.phone, attributes := u.attributes);
    RuledFields(c.rules, m);
    SameAttributes(c.rules, m, u, l.status, Merged(c, l, u).status);
  }

  /** `r` is the directory's user `u` as it is created here. */
  ghost predicate Imported(c: Config, u: User, r: User) {
    r.username == u.username && r.email == u.email && r.phone == u.phone && r.attributes == u.attributes &&
    StatusByRules(c.rules, u, u.status, r.status)
  }

  lemma {:induction false} NewUsersImported(c: Config, repo: seq<User>, remote: seq<User>, j: nat) returns (k: nat)
    requires j < |NewUsers(c, repo, remote)|
    ensures k < |remote| && !Named(repo, remote[k].username) && Imported(c, remote[k], NewUsers(c, repo, remote)[j])
  {
    var n := |remote| - 1;
    if j < |NewUsers(c, repo, remote[..n])| {
      k := NewUsersImported(c, repo, remote[..n], j);
    } else {
      k := n;
      RuledFields(c.rules, remote[n]);
    }
  }

  lemma {:induction false} AllImported(c: Config, repo: seq<User>, remote: seq<User>, k: nat)
    requires k < |remote| && !Named(repo, remote[k].username)
    ensures Named(NewUsers(c, repo, remote), remote[k].username)
  {
    var n, all := |remote| - 1, NewUsers(c, repo, remote);
    if k < n {
      var some := NewUsers(c, repo, remote[..n]);
      AllImported(c, repo, remote[..n], k);
      var j :| 0 <= j < |some| && some[j].username == remote[k].username;
      assert all[j] == some[j];
    } else {
      RuledFields(c.rules, remote[n]);
      assert all[|all| - 1].username == remote[n].username;
    }
  }

  /** A full sync, field by field, when nothing fails and the local users fit the page. A local user
      the directory knows keeps its record if local data is preferred or the contact data agrees, and
      otherwise takes over e-mail, phone and attributes and the status those attributes call for. One
      the directory lacks changes its status only, to inactive. The others are the directory's users
      that were unknown here, every one of them, with the directory's fields. */
  lemma {:induction false} FullSyncFields(c: Config, fails: Failures, repo: seq<User>, remote: seq<User>)
    requires |repo| <= PAGE_SIZE && DistinctNames(repo) && DistinctNames(remote) && forall w :: !fails(w)
    ensures var r := FullSynced(c, fails, repo, remote).repo;
            |repo| <= |r| &&
            (forall i, k :: 0 <= i < |repo| && 0 <= k < |remote| && repo[i].username == remote[k].username ==>
               if c.preferLocal || (repo[i].email == remote[k].email && repo[i].phone == remote[k].phone)
               then r[i] == repo[i] else TakenOver(c, repo[i], remote[k], r[i])) &&
            (forall i :: 0 <= i < |repo| && !Named(remote, repo[i].username) ==>
               r[i] == repo[i].(status := "inactive")) &&
            (forall i :: |repo| <= i < |r| ==>
               exists k :: 0 <= k < |remote| && !Named(repo, remote[k].username) && Imported(c, remote[k], r[i])) &&
            (forall k :: 0 <= k < |remote| ==> Named(r, remote[k].username))
  {
    FullSyncExact(c, fails, repo, remote);
    LocalFields(c, repo, remote);
    AddedFields(c, repo, remote, ExpectedAll(c, remote, repo));
    forall k | 0 <= k < |remote| ensures Named(FullSynced(c, fails, repo, remote).repo, remote[k].username) {
      EveryRemoteNamed(c, fails, repo, remote, k);
    }
  }

  lemma {:induction false} LocalFields(c: Config, repo: seq<User>, remote: seq<User>)
    requires DistinctNames(remote)
    ensures var r := ExpectedAll(c, remote, repo);
            (forall i, k :: 0 <= i < |repo| && 0 <= k < |remote| && repo[i].username == remote[k].username ==>
               if c.preferLocal || (repo[i].email == remote[k].email && repo[i].phone == remote[k].phone)
               then r[i] == repo[i] else TakenOver(c, repo[i], remote[k], r[i])) &&
            (forall i :: 0 <= i < |repo| && !Named(remote, repo[i].username) ==>
               r[i] == repo[i].(status := "inactive"))
  {
    forall i, k | 0 <= i < |repo| && 0 <= k < |remote| && repo[i].username == remote[k].username
      ensures var e := Expected(c, remote, repo[i]);
              if c.preferLocal || (repo[i].email == remote[k].email && repo[i].phone == remote[k].phone)
              then e == repo[i] else TakenOver(c, repo[i], remote[k], e)
    {
      KnownFields(c, repo[i], remote, k);
    }
  }

  lemma {:induction false} AddedFields(c: Config, repo: seq<User>, remote: seq<User>, kept: seq<User>)
    ensures var r := kept + NewUsers(c, repo, remote);
            forall i :: |kept| <= i < |r| ==>
              exists k :: 0 <= k < |remote| && !Named(repo, remote[k].username) && Imported(c, remote[k], r[i])
  {
    var added := NewUsers(c, repo, remote);
    var r := kept + added;
    forall i | |kept| <= i < |r|
      ensures exists k :: 0 <= k < |remote| && !Named(repo, remote[k].username) && Imported(c, remote[k], r[i])
    {
      assert r[i] == added[i - |kept|];
      var k := NewUsersImported(c, repo, remote, i - |kept|);
    }
  }

  lemma {:induction false} KnownFields(c: Config, l: User, remote: seq<User>, k: nat)
    requires k < |remote| && DistinctNames(remote) && l.username == remote[k].username
    ensures if c.preferLocal || (l.email == remote[k].email && l.phone == remote[k].phone)
            then Expected(c, remote, l) == l else TakenOver(c, l, remote[k], Expected(c, remote, l))
  {
    assert LastIndex(remote, l.username) == Some(k);
    MergedFields(c, l, remote[k]);
  }

  lemma {:induction false} EveryRemoteNamed(c: Config, fails: Failures, repo: seq<User>, remote: seq<User>, k: nat)
    requires |repo| <= PAGE_SIZE && DistinctNames(repo) && DistinctNames(remote) && forall w :: !fails(w)
    requires k < |remote|
    ensures Named(FullSynced(c, fails, repo, remote).repo, remote[k].username)
  {
    FullSyncExact(c, fails, repo, remote);
    ExpectedNames(c, remote, repo);
    var r := FullSynced(c, fails, repo, remote).repo;
    if Named(repo, remote[k].username) {
      var i :| 0 <= i < |repo| && repo[i].username == remote[k].username;
      assert r[i].username == remote[k].username;
    } else {
      var added := NewUsers(c, repo, remote);
      AllImported(c, repo, remote, k);
      var j :| 0 <= j < |added| && added[j].username == remote[k].username;
      assert r[|repo| + j] == added[j];
    }
  }

  // ---------- Counters ----------

  /** The counters and the repository's growth agree with the write attempts. */
  ghost predicate Tallied(s: Sync, size: nat) {
    s.stats.created + s.stats.updated + s.stats.disabled + s.stats.errors == s.writes &&
    |s.repo| == size + s.stats.created
  }

  lemma {:induction false} SyncedTallies(c: Config, fails: Failures, s: Sync, remote: seq<User>, size: nat)
    requires |s.locals| <= |s.repo| && Tallied(s, size)
    ensures Tallied(Synced(c, fails, s, remote), size)
  {
    if remote != [] { SyncedTallies(c, fails, s, remote[..|remote| - 1], size); }
  }

  lemma {:induction false} DisabledTallies(fails: Failures, s: Sync, remote: seq<User>, n: nat, size: nat)
    requires n <= |s.locals| <= |s.repo| && Tallied(s, size)
    ensures Tallied(Disabled(fails, s, remote, n), size)
  {
    if n > 0 { DisabledTallies(fails, s, remote, n - 1, size); }
  }

  /** Under every failure pattern each write attempt is counted once, as created, updated, disabled
      or an error, and `created` is how much the repository has grown. */
  lemma {:induction false} WritesAreCounted(c: Config, fails: Failures, repo: seq<User>, remote: seq<User>)
    ensures Tallied(FullSynced(c, fails, repo, remote), |repo|)
  {
    var s := Synced(c, fails, Begun(repo, remote), remote);
    SyncedTallies(c, fails, Begun(repo, remote), remote, |repo|);
    DisabledTallies(fails, s, remote, |s.locals|, |repo|);
  }

  /** The remote users whose contact data is to be taken over. */
  function Outdated(c: Config, repo: seq<User>, remote: seq<User>): nat {
    if remote == [] then 0
    else
      var n := |remote| - 1;
      Outdated(c, repo, remote[..n]) +
      match LastIndex(repo, remote[n].username)
      case Some(i) =>
        if c.preferLocal || (repo[i].email == remote[n].email && repo[i].phone == remote[n].phone) then 0 else 1
      case None => 0
  }

  ghost predicate CountedSoFar(c: Config, repo: seq<User>, remote: seq<User>, n: nat, t: Stats)
    requires n <= |remote|
  {
    t.created == |NewUsers(c, repo, remote[..n])| && t.updated == Outdated(c, repo, remote[..n]) &&
    t.errors == 0 && t.disabled == 0 && t.created + t.updated + t.same == n
  }

  lemma {:induction false} CountedNext(
    c: Config, fails: Failures, repo: seq<User>, remote: seq<User>, n: nat, s: Sync
  )
    requires n < |remote| && Midway(c, repo, remote, n, s) && DistinctNames(repo) && DistinctNames(remote)
    requires !fails(s.writes) && CountedSoFar(c, repo, remote, n, s.stats)
    ensures CountedSoFar(c, repo, remote, n + 1, SyncedOne(c, fails, s, remote[n]).stats)
  {
    CountStep(c, fails, repo, remote, n, s);
    ExpectedNext(c, repo, remote, n);
  }

  lemma {:induction false} ExpectedNext(c: Config, repo: seq<User>, remote: seq<User>, n: nat)
    requires n < |remote|
    ensures var at, u := LastIndex(repo, remote[n].username), remote[n];
            |NewUsers(c, repo, remote[..n + 1])| == |NewUsers(c, repo, remote[..n])| + (if at.None? then 1 else 0) &&
            Outdated(c, repo, remote[..n + 1]) == Outdated(c, repo, remote[..n]) +
              match at
              case Some(i) =>
                if c.preferLocal || (repo[i].email == u.email && repo[i].phone == u.phone) then 0 else 1
              case None => 0
  {
    assert remote[..n + 1][..n] == remote[..n];
    assert Named(repo, remote[n].username) <==> LastIndex(repo, remote[n].username).Some?;
  }

  lemma {:induction false} FirstPhaseCounts(c: Config, fails: Failures, repo: seq<User>, remote: seq<User>, n: nat)
    requires n <= |remote| && |repo| <= PAGE_SIZE && DistinctNames(repo) && DistinctNames(remote)
    requires forall w :: !fails(w)
    ensures CountedSoFar(c, repo, remote, n, Synced(c, fails, Begun(repo, remote), remote[..n]).stats)
  {
    if n == 0 {
      assert remote[..0] == [];
    } else {
      var m := n - 1;
      var s := Synced(c, fails, Begun(repo, remote), remote[..m]);
      FirstPhaseCounts(c, fails, repo, remote, m);
      MidwayHolds(c, fails, repo, remote, m);
      CountedNext(c, fails, repo, remote, m, s);
      SyncedNext(c, fails, Begun(repo, remote), remote, m);
      assert Synced(c, fails, Begun(repo, remote), remote[..n]) == SyncedOne(c, fails, s, remote[m]);
    }
  }

  lemma {:induction false} CountStep(
    c: Config, fails: Failures, repo: seq<User>, remote: seq<User>, n: nat, s: Sync
  )
    requires n < |remote| && Midway(c, repo, remote, n, s) && DistinctNames(repo) && DistinctNames(remote)
    requires !fails(s.writes)
    ensures var t, u := SyncedOne(c, fails, s, remote[n]).stats, remote[n];
            match LastIndex(repo, u.username)
            case None => t == s.stats.(created := s.stats.created + 1)
            case Some(i) =>
              if c.preferLocal || (repo[i].email == u.email && repo[i].phone == u.phone)
              then t == s.stats.(same := s.stats.same + 1) else t == s.stats.(updated := s.stats.updated + 1)
  {
    var u := remote[n];
    forall i | 0 <= i < |repo| ensures s.locals[i].username == repo[i].username {
      assert MidwayAt(c, repo[i], remote, n, s.locals[i], s.repo[i]);
    }
    SameIndex(repo, s.locals, u.username);
    match LastIndex(repo, u.username) {
      case None =>
        MidwayStillNew(c, repo, remote, n, s);
      case Some(i) =>
        assert LastIndex(remote[..n], u.username).None?;
        assert MidwayAt(c, repo[i], remote, n, s.locals[i], s.repo[i]);
    }
  }

  lemma {:induction false} SameIndex(a: seq<User>, b: seq<User>, name: string)
    requires |a| == |b| && forall i :: 0 <= i < |a| ==> a[i].username == b[i].username
    ensures LastIndex(a, name) == LastIndex(b, name)
  {
    if a != [] { SameIndex(a[..|a| - 1], b[..|b| - 1], name); }
  }

  lemma {:induction false} SecondPhaseCounts(fails: Failures, s: Sync, remote: seq<User>, n: nat)
    requires n <= |s.locals| <= |s.repo| && forall w :: !fails(w)
    ensures var r := Disabled(fails, s, remote, n);
            r.stats == s.stats.(disabled := s.stats.disabled + Orphans(remote, s.locals, n)) &&
            forall i :: n <= i < |s.locals| ==> r.locals[i] == s.locals[i]
  {
    if n > 0 { SecondPhaseCounts(fails, s, remote, n - 1); }
  }

  /** What each counter means when nothing fails and the local users fit the page. */
  lemma {:induction false} CountersExact(c: Config, fails: Failures, repo: seq<User>, remote: seq<User>)
    requires |repo| <= PAGE_SIZE && DistinctNames(repo) && DistinctNames(remote) && forall w :: !fails(w)
    ensures var t := FullSynced(c, fails, repo, remote).stats;
            t.created == |NewUsers(c, repo, remote)| && t.updated == Outdated(c, repo, remote) &&
            t.disabled == Orphans(remote, repo, |repo|) && t.errors == 0 &&
            t.created + t.updated + t.same == |remote| && t.totalRemote == |remote| && t.totalLocal == |repo|
  {
    assert remote[..|remote|] == remote;
    var s0 := Begun(repo, remote);
    var s := Synced(c, fails, s0, remote);
    FirstPhaseCounts(c, fails, repo, remote, |remote|);
    SyncedAccounts(c, fails, s0, remote, remote);
    SecondPhaseCounts(fails, s, remote, |s.locals|);
    OrphansAgree(remote, s0.locals, s.locals, |s0.locals|);
  }

  /** The failing look-ups among the first `n`. */
  function Unread(lookupFails: Failures, n: nat): nat {
    if n == 0 then 0 else Unread(lookupFails, n - 1) + if lookupFails(n - 1) then 1 else 0
  }

  ghost predicate IncrementTallied(r: Sync, size: nat, lookupFails: Failures, n: nat) {
    r.stats.created + r.stats.updated + r.stats.errors == r.writes + Unread(lookupFails, n) &&
    r.stats.disabled == 0 && |r.repo| == size + r.stats.created &&
    r.writes + r.stats.same + Unread(lookupFails, n) == n
  }

  lemma {:induction false} IncrementTallyStep(
    c: Config, fails: Failures, r: Sync, u: User, size: nat, lookupFails: Failures, n: nat
  )
    requires IncrementTallied(r, size, lookupFails, n)
    ensures IncrementTallied(IncrementalOne(c, fails, r, u, lookupFails(n)), size, lookupFails, n + 1)
  {}

  /** In an incremental sync every write attempt and every failed look-up is counted once, nobody is
      disabled, and a user whose look-up fails is not written. */
  lemma {:induction false} IncrementalIsCounted(
    c: Config, fails: Failures, lookupFails: Failures, s: Sync, changed: seq<User>
  )
    requires s.stats.(totalRemote := 0, totalLocal := 0) == Stats(0, 0, 0, 0, 0, 0, 0) && s.writes == 0
    ensures IncrementTallied(Incremental(c, fails, lookupFails, s, changed), |s.repo|, lookupFails, |changed|)
  {
    if changed != [] {
      var n := |changed| - 1;
      var r := Incremental(c, fails, lookupFails, s, changed[..n]);
      IncrementalIsCounted(c, fails, lookupFails, s, changed[..n]);
      IncrementTallyStep(c, fails, r, changed[n], |s.repo|, lookupFails, n);
    }
  }
}
