/** The repository a full directory sync leaves behind, in closed form. */
module LdapSyncResult {
  import opened Options
  import opened LdapSync
  import opened LdapSyncConvergence

  predicate Applies(r: Rule, u: User) {
    r.sourceAttr in u.attributes && u.attributes[r.sourceAttr] == r.matchValue
  }

  /** The first applicable lifecycle rule decides the status; without one nothing changes. */
  lemma {:induction false} FirstRuleWins(rules: seq<Rule>, u: User, i: nat)
    requires i <= |rules| && forall j :: 0 <= j < i ==> !Applies(rules[j], u)
    requires i < |rules| ==> Applies(rules[i], u)
    ensures Ruled(rules, u) == if i < |rules| then u.(status := rules[i].targetStatus) else u
  {
    if i > 0 {
      assert !Applies(rules[0], u);
      forall j | 0 <= j < i - 1 ensures !Applies(rules[1..][j], u) { assert rules[1..][j] == rules[j + 1]; }
      FirstRuleWins(rules[1..], u, i - 1);
    }
  }

  /** What becomes of a local user: kept when local data is preferred or the contact data already
      agrees (then new attributes are not stored either), else merged with the directory's user and
      put through the lifecycle rules; deactivated when the directory lacks it. */
  function Expected(c: Config, remote: seq<User>, l: User): User {
    match LastIndex(remote, l.username)
    case Some(k) => if c.preferLocal || SameContact(l, remote[k]) then l else Merged(c, l, remote[k])
    case None => l.(status := INACTIVE)
  }

  function ExpectedAll(c: Config, remote: seq<User>, repo: seq<User>): seq<User> {
    seq(|repo|, i requires 0 <= i < |repo| => Expected(c, remote, repo[i]))
  }

  /** After the first `n` remote users: those met are settled, the others untouched. */
  ghost predicate Midway(c: Config, repo: seq<User>, remote: seq<User>, n: nat, s: Sync)
    requires n <= |remote|
  {
    |s.locals| == |repo| <= |s.repo| && s.repo[|repo|..] == NewUsers(c, repo, remote[..n]) &&
    forall i :: 0 <= i < |repo| ==> MidwayAt(c, repo[i], remote, n, s.locals[i], s.repo[i])
  }

  ghost predicate MidwayAt(c: Config, l: User, remote: seq<User>, n: nat, local: User, stored: User)
    requires n <= |remote|
  {
    match LastIndex(remote[..n], l.username)
    case None => local == l && stored == l
    case Some(k) =>
      local.username == l.username && local.email == stored.email && local.phone == stored.phone &&
      stored == if c.preferLocal || SameContact(l, remote[k]) then l else Merged(c, l, remote[k])
  }

  lemma {:induction false} IndexGrows(remote: seq<User>, n: nat, name: string)
    requires n < |remote|
    ensures LastIndex(remote[..n + 1], name) ==
            if remote[n].username == name then Some(n) else LastIndex(remote[..n], name)
  {}

  lemma {:induction false} MidwayUpdate(
    c: Config, fails: Failures, repo: seq<User>, remote: seq<User>, n: nat, s: Sync, i: nat
  )
    requires n < |remote| && Midway(c, repo, remote, n, s) && DistinctNames(repo)
    requires DistinctNames(remote) && !fails(s.writes)
    requires i < |repo| && repo[i].username == remote[n].username
    ensures Midway(c, repo, remote, n + 1, UpdatedUser(c, fails, s, i, remote[n]))
  {
    var u, t := remote[n], UpdatedUser(c, fails, s, i, remote[n]);
    RuledChangesStatusOnly(c.rules, repo[i].(email := u.email, phone := u.phone, attributes := u.attributes));
    assert LastIndex(remote[..n], u.username).None?;
    assert MidwayAt(c, repo[i], remote, n, s.locals[i], s.repo[i]);
    assert remote[..n + 1][..n] == remote[..n] && Named(repo, u.username);
    assert NewUsers(c, repo, remote[..n + 1]) == NewUsers(c, repo, remote[..n]);
    forall j | 0 <= j < |repo| ensures MidwayAt(c, repo[j], remote, n + 1, t.locals[j], t.repo[j]) {
      IndexGrows(remote, n, repo[j].username);
      assert MidwayAt(c, repo[j], remote, n, s.locals[j], s.repo[j]);
    }
    assert t.repo[|repo|..] == s.repo[|repo|..];
  }

  /** A user new to the repository is still new midway: the names appended so far are others. */
  lemma {:induction false} MidwayStillNew(c: Config, repo: seq<User>, remote: seq<User>, n: nat, s: Sync)
    requires n < |remote| && Midway(c, repo, remote, n, s) && DistinctNames(remote)
    requires !Named(repo, remote[n].username)
    ensures !Named(s.repo, remote[n].username)
  {
    forall i | 0 <= i < |s.repo| ensures s.repo[i].username != remote[n].username {
      if i < |repo| {
        assert MidwayAt(c, repo[i], remote, n, s.locals[i], s.repo[i]);
        var at := LastIndex(remote[..n], repo[i].username);
        if at.Some? { MergedName(c, repo[i], remote[at.value]); }
      } else {
        assert s.repo[i] == s.repo[|repo|..][i - |repo|];
        NewNames(c, repo, remote[..n], i - |repo|);
      }
    }
  }

  lemma {:induction false} MergedName(c: Config, l: User, u: User)
    ensures Merged(c, l, u).username == l.username
  {
    RuledChangesStatusOnly(c.rules, l.(email := u.email, phone := u.phone, attributes := u.attributes));
  }

  lemma {:induction false} MidwayCreate(c: Config, fails: Failures, repo: seq<User>, remote: seq<User>, n: nat, s: Sync)
    requires n < |remote| && Midway(c, repo, remote, n, s) && !fails(s.writes)
    requires !Named(repo, remote[n].username) && !Named(s.repo, remote[n].username)
    ensures Midway(c, repo, remote, n + 1, CreatedUser(c, fails, s, remote[n]))
  {
    var u, t := remote[n], CreatedUser(c, fails, s, remote[n]);
    assert remote[..n + 1][..n] == remote[..n];
    assert NewUsers(c, repo, remote[..n + 1]) == NewUsers(c, repo, remote[..n]) + [Ruled(c.rules, u)];
    forall j | 0 <= j < |repo| ensures MidwayAt(c, repo[j], remote, n + 1, t.locals[j], t.repo[j]) {
      IndexGrows(remote, n, repo[j].username);
      assert MidwayAt(c, repo[j], remote, n, s.locals[j], s.repo[j]);
    }
    assert t.repo[|repo|..] == s.repo[|repo|..] + [Ruled(c.rules, u)];
  }

  lemma {:induction false} MidwayStep(c: Config, fails: Failures, repo: seq<User>, remote: seq<User>, n: nat, s: Sync)
    requires n < |remote| && Midway(c, repo, remote, n, s) && DistinctNames(repo)
    requires DistinctNames(remote) && !fails(s.writes)
    ensures Midway(c, repo, remote, n + 1, SyncedOne(c, fails, s, remote[n]))
  {
    forall i | 0 <= i < |repo| ensures s.locals[i].username == repo[i].username {
      assert MidwayAt(c, repo[i], remote, n, s.locals[i], s.repo[i]);
    }
    match LastIndex(s.locals, remote[n].username) {
      case Some(i) => MidwayUpdate(c, fails, repo, remote, n, s, i);
      case None =>
        assert forall i :: 0 <= i < |repo| ==> repo[i].username == s.locals[i].username != remote[n].username;
        MidwayStillNew(c, repo, remote, n, s);
        MidwayCreate(c, fails, repo, remote, n, s);
    }
  }

  lemma {:induction false} MidwayHolds(c: Config, fails: Failures, repo: seq<User>, remote: seq<User>, n: nat)
    requires n <= |remote| && |repo| <= PAGE_SIZE && DistinctNames(repo)
    requires DistinctNames(remote) && forall w :: !fails(w)
    ensures Midway(c, repo, remote, n, Synced(c, fails, Begun(repo, remote), remote[..n]))
  {
    if n > 0 {
      MidwayHolds(c, fails, repo, remote, n - 1);
      assert remote[..n][..n - 1] == remote[..n - 1];
      MidwayStep(c, fails, repo, remote, n - 1, Synced(c, fails, Begun(repo, remote), remote[..n - 1]));
    }
  }

  /** The second phase, user by user. */
  lemma {:induction false} DisabledExactly(fails: Failures, s: Sync, remote: seq<User>, n: nat)
    requires n <= |s.locals| <= |s.repo| && forall w :: !fails(w)
    requires forall i :: 0 <= i < |s.locals| && !Named(remote, s.locals[i].username) ==> s.locals[i] == s.repo[i]
    ensures var r := Disabled(fails, s, remote, n);
            (forall i :: n <= i < |s.locals| ==> r.locals[i] == s.locals[i]) &&
            (forall i :: 0 <= i < |s.repo| ==>
               r.repo[i] == if i < n && !Named(remote, s.locals[i].username) then s.repo[i].(status := INACTIVE)
                            else s.repo[i])
  {
    if n > 0 {
      DisabledExactly(fails, s, remote, n - 1);
    }
  }

  lemma {:induction false} DisablingFinishes(c: Config, fails: Failures, repo: seq<User>, remote: seq<User>, s: Sync)
    requires Midway(c, repo, remote, |remote|, s) && forall w :: !fails(w)
    ensures Disabled(fails, s, remote, |s.locals|).repo == ExpectedAll(c, remote, repo) + NewUsers(c, repo, remote)
  {
    assert remote[..|remote|] == remote;
    forall i | 0 <= i < |repo|
      ensures s.locals[i].username == repo[i].username
      ensures if Named(remote, repo[i].username) then s.repo[i] == Expected(c, remote, repo[i])
              else s.locals[i] == s.repo[i] == repo[i]
    {
      assert MidwayAt(c, repo[i], remote, |remote|, s.locals[i], s.repo[i]);
    }
    DisabledExactly(fails, s, remote, |s.locals|);
    var r := Disabled(fails, s, remote, |s.locals|).repo;
    assert r[|repo|..] == s.repo[|repo|..];
    assert r[..|repo|] == ExpectedAll(c, remote, repo);
    assert r == r[..|repo|] + r[|repo|..];
  }

  /** With distinct usernames, a local set that fits the page and no failures, a full sync turns
      each local user into its expected record, in place, and appends the new users. */
  lemma {:induction false} FullSyncExact(c: Config, fails: Failures, repo: seq<User>, remote: seq<User>)
    requires |repo| <= PAGE_SIZE && DistinctNames(repo) && DistinctNames(remote) && forall w :: !fails(w)
    ensures FullSynced(c, fails, repo, remote).repo == ExpectedAll(c, remote, repo) + NewUsers(c, repo, remote)
  {
    assert remote[..|remote|] == remote;
    MidwayHolds(c, fails, repo, remote, |remote|);
    DisablingFinishes(c, fails, repo, remote, Synced(c, fails, Begun(repo, remote), remote));
  }

  // ---------- A second pass ----------

  /** The names that are new to `repo` and those new to a page that also holds the first `m` of them. */
  lemma {:induction false} StillNew(c: Config, repo: seq<User>, page: seq<User>, remote: seq<User>, n: nat, m: nat)
    requires n <= |remote| && DistinctNames(remote) && m <= |NewUsers(c, repo, remote)|
    requires SameNames(page, repo + NewUsers(c, repo, remote)[..m])
    ensures var some, all := NewUsers(c, repo, remote[..n]), NewUsers(c, repo, remote);
            |some| <= |all| && all[..|some|] == some &&
            |NewUsers(c, page, remote[..n])| == if |some| <= m then 0 else |some| - m
    decreases n
  {
    NewPrefix(c, repo, remote, n);
    if n > 0 {
      StillNew(c, repo, page, remote, n - 1, m);
      assert remote[..n][..n - 1] == remote[..n - 1];
      NewOnPage(c, repo, page, remote, n - 1, m);
    }
  }

  lemma {:induction false} NewPrefix(c: Config, repo: seq<User>, remote: seq<User>, n: nat)
    requires n <= |remote|
    ensures var some, all := NewUsers(c, repo, remote[..n]), NewUsers(c, repo, remote);
            |some| <= |all| && all[..|some|] == some
    decreases |remote| - n
  {
    if n == |remote| {
      assert remote[..n] == remote;
    } else {
      NewPrefix(c, repo, remote, n + 1);
      assert remote[..n + 1][..n] == remote[..n];
    }
  }

  /** Every new user carries the name of the remote user it was made from. */
  lemma {:induction false} NewNames(c: Config, repo: seq<User>, remote: seq<User>, j: nat)
    requires j < |NewUsers(c, repo, remote)|
    ensures Named(remote, NewUsers(c, repo, remote)[j].username)
  {
    var n := |remote| - 1;
    RuledChangesStatusOnly(c.rules, remote[n]);
    if j < |NewUsers(c, repo, remote[..n])| {
      NewNames(c, repo, remote[..n], j);
      var k :| 0 <= k < n && remote[..n][k].username == NewUsers(c, repo, remote[..n])[j].username;
      assert remote[k].username == NewUsers(c, repo, remote)[j].username;
    }
  }

  /** The next remote user is on the page exactly if it is a local one or among the first `m` new. */
  lemma {:induction false} NewOnPage(c: Config, repo: seq<User>, page: seq<User>, remote: seq<User>, n: nat, m: nat)
    requires n < |remote| && DistinctNames(remote) && m <= |NewUsers(c, repo, remote)|
    requires SameNames(page, repo + NewUsers(c, repo, remote)[..m])
    ensures Named(page, remote[n].username) <==>
            Named(repo, remote[n].username) || |NewUsers(c, repo, remote[..n])| < m
  {
    var all, some, u := NewUsers(c, repo, remote), NewUsers(c, repo, remote[..n]), remote[n];
    var known := repo + all[..m];
    assert Named(page, u.username) <==> Named(known, u.username);
    NewPrefix(c, repo, remote, n);
    NewPrefix(c, repo, remote, n + 1);
    assert remote[..n + 1][..n] == remote[..n];
    RuledChangesStatusOnly(c.rules, u);
    if Named(repo, u.username) {
      var i :| 0 <= i < |repo| && repo[i].username == u.username;
      assert known[i].username == u.username;
    } else if |some| < m {
      assert all[|some|] == NewUsers(c, repo, remote[..n + 1])[|some|];
      assert known[|repo| + |some|].username == u.username;
    } else {
      forall i | 0 <= i < |known| ensures known[i].username != u.username {
        if i < |repo| {
          assert known[i] == repo[i];
        } else {
          assert known[i] == all[i - |repo|] == some[i - |repo|];
          NewNames(c, repo, remote[..n], i - |repo|);
        }
      }
    }
  }

  lemma {:induction false} ExpectedNames(c: Config, remote: seq<User>, repo: seq<User>)
    ensures SameNames(ExpectedAll(c, remote, repo), repo)
  {
    forall i | 0 <= i < |repo| ensures Expected(c, remote, repo[i]).username == repo[i].username {
      var at := LastIndex(remote, repo[i].username);
      if at.Some? {
        var u := remote[at.value];
        RuledChangesStatusOnly(c.rules, repo[i].(email := u.email, phone := u.phone, attributes := u.attributes));
      }
    }
  }

  lemma {:induction false} PageOfFirst(kept: seq<User>, added: seq<User>, m: nat)
    requires |kept| <= PAGE_SIZE
    requires m == if |kept| + |added| <= PAGE_SIZE then |added| else PAGE_SIZE - |kept|
    ensures Page(kept + added) == kept + added[..m]
  {}

  /** The new users of a first pass that do not fit on the page of the second. */
  function Overflow(c: Config, repo: seq<User>, remote: seq<User>): nat {
    var total := |repo| + |NewUsers(c, repo, remote)|;
    if total <= PAGE_SIZE then 0 else total - PAGE_SIZE
  }

  lemma {:induction false} MissedAreOverflow(c: Config, fails: Failures, repo: seq<User>, remote: seq<User>)
    requires |repo| <= PAGE_SIZE && DistinctNames(repo) && DistinctNames(remote) && forall w :: !fails(w)
    ensures var first := FullSynced(c, fails, repo, remote).repo;
            |NewUsers(c, Page(first), remote)| == Overflow(c, repo, remote) &&
            |Page(first)| == |first| - Overflow(c, repo, remote)
  {
    var all := NewUsers(c, repo, remote);
    FullSyncExact(c, fails, repo, remote);
    ExpectedNames(c, remote, repo);
    var m := if |repo| + |all| <= PAGE_SIZE then |all| else PAGE_SIZE - |repo|;
    PageOfFirst(ExpectedAll(c, remote, repo), all, m);
    assert remote[..|remote|] == remote;
    StillNew(c, repo, Page(FullSynced(c, fails, repo, remote).repo), remote, |remote|, m);
  }

  /** Convergence, under either conflict strategy: after one pass without failures, with distinct
      usernames and local users that fit the page, a second pass against the same directory leaves
      the repository as it is, whatever fails then. It reports zero created, updated and disabled;
      unchanged are exactly the remote users its page still holds, and each of the others is a
      refused creation, counted as an error. So the report is clean exactly when local and new users
      together fit the page. */
  lemma {:induction false} SyncConverges(
    c: Config, fails: Failures, failsLater: Failures, repo: seq<User>, remote: seq<User>
  )
    requires DistinctNames(repo) && DistinctNames(remote) && |repo| <= PAGE_SIZE && forall w :: !fails(w)
    ensures var first, missed := FullSynced(c, fails, repo, remote).repo, Overflow(c, repo, remote);
            var second := FullSynced(c, failsLater, first, remote);
            second.repo == first && missed <= |remote| && missed <= |first| &&
            second.stats == Stats(0, 0, 0, |remote| - missed, missed, |remote|, |first| - missed)
  {
    var first := FullSynced(c, fails, repo, remote).repo;
    NoFailuresSettles(c, fails, repo, remote);
    SettledIsFixedPoint(c, failsLater, first, remote);
    MissedAreOverflow(c, fails, repo, remote);
  }

  // ---------- What no sync does ----------

  /** `r` differs from `s` by changed users of the page and by added users of other names. */
  ghost predicate Safe(s: Sync, r: Sync) {
    DistinctNames(r.repo) && |r.locals| == |s.locals| <= |s.repo| <= |r.repo| &&
    (forall i :: 0 <= i < |r.locals| ==> r.locals[i].username == r.repo[i].username) &&
    forall i :: |s.locals| <= i < |s.repo| ==> r.repo[i] == s.repo[i]
  }

  lemma {:induction false} SafeStep(c: Config, fails: Failures, s: Sync, r: Sync, u: User)
    requires Safe(s, r)
    ensures Safe(s, SyncedOne(c, fails, r, u))
  {
    RuledChangesStatusOnly(c.rules, u);
    var at := LastIndex(r.locals, u.username);
    if at.Some? { MergedName(c, r.locals[at.value], u); }
  }

  lemma {:induction false} SyncedIsSafe(c: Config, fails: Failures, s: Sync, remote: seq<User>)
    requires Safe(s, s)
    ensures Safe(s, Synced(c, fails, s, remote))
  {
    if remote != [] {
      var n := |remote| - 1;
      SyncedIsSafe(c, fails, s, remote[..n]);
      SafeStep(c, fails, s, Synced(c, fails, s, remote[..n]), remote[n]);
    }
  }

  lemma {:induction false} DisabledIsSafe(fails: Failures, s: Sync, r: Sync, remote: seq<User>, n: nat)
    requires Safe(s, r) && n <= |r.locals|
    ensures Safe(s, Disabled(fails, r, remote, n))
  {
    if n > 0 { DisabledIsSafe(fails, s, r, remote, n - 1); }
  }

  /** Whatever the directory lists, repeats included, and whatever fails, a full sync never makes two
      users of one name, removes nobody, and leaves users beyond the page exactly as they were. */
  lemma {:induction false} FullSyncIsSafe(c: Config, fails: Failures, repo: seq<User>, remote: seq<User>)
    requires DistinctNames(repo)
    ensures var r := FullSynced(c, fails, repo, remote).repo;
            DistinctNames(r) && |repo| <= |r| && forall i :: PAGE_SIZE <= i < |repo| ==> r[i] == repo[i]
  {
    var s0 := Begun(repo, remote);
    SyncedIsSafe(c, fails, s0, remote);
    var s := Synced(c, fails, s0, remote);
    DisabledIsSafe(fails, s0, s, remote, |s.locals|);
  }

  lemma {:induction false} SyncedFailing(c: Config, fails: Failures, s: Sync, remote: seq<User>)
    requires |s.locals| <= |s.repo| && forall w :: fails(w)
    ensures var r := Synced(c, fails, s, remote);
            r.repo == s.repo && r.stats.created == s.stats.created && r.stats.updated == s.stats.updated
  {
    if remote != [] { SyncedFailing(c, fails, s, remote[..|remote| - 1]); }
  }

  lemma {:induction false} DisabledFailing(fails: Failures, s: Sync, remote: seq<User>, n: nat)
    requires n <= |s.locals| <= |s.repo| && forall w :: fails(w)
    ensures var r := Disabled(fails, s, remote, n);
            r.repo == s.repo && r.stats == s.stats.(disabled := s.stats.disabled, errors := r.stats.errors)
  {
    if n > 0 { DisabledFailing(fails, s, remote, n - 1); }
  }

  /** When every write fails the repository stays as it is and nothing is reported as done. */
  lemma {:induction false} FailingWritesChangeNothing(c: Config, fails: Failures, repo: seq<User>, remote: seq<User>)
    requires forall w :: fails(w)
    ensures var r := FullSynced(c, fails, repo, remote);
            r.repo == repo && r.stats.created == 0 && r.stats.updated == 0 && r.stats.disabled == 0
  {
    var s0 := Begun(repo, remote);
    var s := Synced(c, fails, s0, remote);
    SyncedFailing(c, fails, s0, remote);
    SyncedAccounts(c, fails, s0, remote, remote);
    DisabledFailing(fails, s, remote, |s.locals|);
  }
}
